/** A printer for flat configurations, and the proof that the mini-parser of src/config.c
    inverts it: any fields in any order, known and unknown keys mixed. */
module FlatConfig {
  import opened CStrings
  import opened Lists
  import opened Quoted
  import opened Config
  import Decimal

  datatype Field =
    | IntField(key: string, n: int)
    | StrField(key: string, value: string)
    | ListField(key: string, items: seq<string>)

  // ---- printing, as pieces between quotes -------------------------------------------

  /** The pieces of a list after its first item: separators, items, closing bracket. */
  function MoreItems(items: seq<string>, sep: string): seq<string> {
    if items == [] then ["]" + sep] else [", ", items[0]] + MoreItems(items[1..], sep)
  }

  /** The pieces of one field; `sep` follows it. */
  function FieldPieces(f: Field, sep: string): (ps: seq<string>)
    ensures |ps| >= 2 && ps[0] == f.key
  {
    match f
    case IntField(k, n) => [k, ": " + (Decimal.Print(n) + sep)]
    case StrField(k, v) => [k, ": ", v, sep]
    case ListField(k, items) =>
      if items == [] then [k, ": []" + sep] else [k, ": [", items[0]] + MoreItems(items[1..], sep)
  }

  function Sep(fields: seq<Field>): string
    requires fields != []
  {
    if |fields| == 1 then " }" else ", "
  }

  function Body(fields: seq<Field>): seq<string> {
    if fields == [] then [] else FieldPieces(fields[0], Sep(fields)) + Body(fields[1..])
  }

  function Pieces(fields: seq<Field>): (ps: seq<string>)
    ensures ps != []
  {
    [if fields == [] then "{ }" else "{ "] + Body(fields)
  }

  /** The printed configuration. */
  function Printed(fields: seq<Field>): string { Joined(Pieces(fields)) }

  // ---- what can be printed ------------------------------------------------------------

  const KEYS: seq<string> := ["interval", "datadir", "hostname", "rrdcached_addr", "metrics_addr", "readers"]

  predicate IsKey(s: string) { s in KEYS }

  /** Text a field may carry: no quote, and not itself a key name. */
  predicate PlainValue(s: string) { '"' !in s && !IsKey(s) }

  /** Known keys have the kind the parser expects; other keys are free. */
  ghost predicate WellFormed(f: Field) {
    && '"' !in f.key
    && (f.key == "interval" ==> f.IntField?)
    && (f.key == "readers" ==> f.ListField?)
    && (IsKey(f.key) && f.key != "interval" && f.key != "readers" ==> f.StrField?)
    && (f.StrField? ==> PlainValue(f.value))
    && (f.ListField? ==> forall i :: 0 <= i < |f.items| ==> PlainValue(f.items[i]))
  }

  ghost predicate AllWellFormed(fields: seq<Field>) {
    forall i :: 0 <= i < |fields| ==> WellFormed(fields[i])
  }

  /** The first field with the key. */
  function First(fields: seq<Field>, key: string): (r: Option<Field>)
    ensures r.Some? ==> r.value in fields && r.value.key == key
  {
    if fields == [] then None
    else if fields[0].key == key then Some(fields[0])
    else First(fields[1..], key)
  }

  // ---- pieces are quote free, and only keys look like keys -------------------------------

  /** A piece outside quotes: it starts with punctuation, so it is no key. */
  predicate Punctuation(p: string) {
    p != "" && p[0] in {' ', ':', ',', ']', '{'} && '"' !in p
  }

  lemma PunctuationIsNoKey(p: string)
    requires Punctuation(p)
    ensures !IsKey(p)
  {
    forall i | 0 <= i < |KEYS| ensures KEYS[i] != p {
      assert KEYS[i][0] in {'i', 'd', 'h', 'r', 'm'};
    }
  }

  lemma PrintIsQuoteFree(n: int)
    ensures '"' !in Decimal.Print(n)
  {
    var d := Decimal.Digits(if n < 0 then -n else n);
    assert forall i :: 0 <= i < |d| ==> Decimal.IsDigit(d[i]);
  }

  /** No piece equals a key, and none contains a quote. */
  ghost predicate Clean(ps: seq<string>) {
    forall i :: 0 <= i < |ps| ==> '"' !in ps[i] && !IsKey(ps[i])
  }

  lemma {:induction false} MoreItemsClean(items: seq<string>, sep: string)
    requires forall i :: 0 <= i < |items| ==> PlainValue(items[i])
    requires Punctuation(sep)
    ensures Clean(MoreItems(items, sep))
    decreases |items|
  {
    PunctuationIsNoKey("]" + sep);
    PunctuationIsNoKey(", ");
    if items != [] {
      MoreItemsClean(items[1..], sep);
    }
  }

  /** All pieces of a field but its key are clean. */
  lemma FieldClean(f: Field, sep: string)
    requires WellFormed(f) && Punctuation(sep)
    ensures Clean(FieldPieces(f, sep)[1..])
  {
    match f
    case IntField(k, n) =>
      PrintIsQuoteFree(n);
      PunctuationIsNoKey(": " + (Decimal.Print(n) + sep));
    case StrField(k, v) =>
      PunctuationIsNoKey(": ");
      PunctuationIsNoKey(sep);
    case ListField(k, items) =>
      ListClean(k, items, sep);
  }

  lemma ListClean(k: string, items: seq<string>, sep: string)
    requires Punctuation(sep) && forall i :: 0 <= i < |items| ==> PlainValue(items[i])
    ensures Clean(FieldPieces(ListField(k, items), sep)[1..])
  {
    if items == [] {
      PunctuationIsNoKey(": []" + sep);
    } else {
      PunctuationIsNoKey(": [");
      var more := MoreItems(items[1..], sep);
      MoreItemsClean(items[1..], sep);
      assert FieldPieces(ListField(k, items), sep)[1..] == [": [", items[0]] + more;
    }
  }

  lemma SepIsPunctuation(fields: seq<Field>)
    requires fields != []
    ensures Punctuation(Sep(fields))
  {
  }

  /** No piece of a field whose key differs equals `key`. */
  lemma FieldAvoids(f: Field, sep: string, key: string)
    requires WellFormed(f) && Punctuation(sep) && IsKey(key) && f.key != key
    ensures forall i :: 0 <= i < |FieldPieces(f, sep)| ==> FieldPieces(f, sep)[i] != key
  {
    FieldClean(f, sep);
    var ps := FieldPieces(f, sep);
    assert forall i :: 1 <= i < |ps| ==> ps[i] == ps[1..][i - 1];
  }

  lemma {:induction false} BodyQuoteFree(fields: seq<Field>)
    requires AllWellFormed(fields)
    ensures QuoteFree(Body(fields))
    decreases |fields|
  {
    if fields != [] {
      SepIsPunctuation(fields);
      assert WellFormed(fields[0]);
      FieldClean(fields[0], Sep(fields));
      var ps := FieldPieces(fields[0], Sep(fields));
      assert forall i :: 1 <= i < |ps| ==> ps[i] == ps[1..][i - 1];
      BodyQuoteFree(fields[1..]);
    }
  }

  lemma PiecesQuoteFree(fields: seq<Field>)
    requires AllWellFormed(fields)
    ensures QuoteFree(Pieces(fields))
  {
    BodyQuoteFree(fields);
  }

  lemma {:induction false} NoFieldInBody(fields: seq<Field>, key: string)
    requires AllWellFormed(fields) && IsKey(key) && First(fields, key).None?
    ensures forall i :: 0 <= i < |Body(fields)| ==> Body(fields)[i] != key
    decreases |fields|
  {
    if fields != [] {
      SepIsPunctuation(fields);
      FieldAvoids(fields[0], Sep(fields), key);
      NoFieldInBody(fields[1..], key);
    }
  }

  /** The printed pieces around the first field with the key; no earlier piece is the key. */
  lemma {:induction false} FindInBody(fields: seq<Field>, key: string)
    returns (pre: seq<string>, sep: string, post: seq<string>)
    requires AllWellFormed(fields) && IsKey(key) && First(fields, key).Some?
    ensures Body(fields) == pre + (FieldPieces(First(fields, key).value, sep) + post)
    ensures forall i :: 0 <= i < |pre| ==> pre[i] != key
    ensures Punctuation(sep) && sep[0] in {' ', ','} && WellFormed(First(fields, key).value)
    decreases |fields|
  {
    SepIsPunctuation(fields);
    BodyCons(fields);
    if fields[0].key == key {
      pre, sep, post := [], Sep(fields), Body(fields[1..]);
      assert pre + (FieldPieces(fields[0], sep) + post) == FieldPieces(fields[0], sep) + post;
    } else {
      FieldAvoids(fields[0], Sep(fields), key);
      var head, before := FieldPieces(fields[0], Sep(fields)), [];
      before, sep, post := FindInBody(fields[1..], key);
      pre := head + before;
      Associate(head, before, FieldPieces(First(fields, key).value, sep) + post);
      BothAvoid(head, before, key);
    }
  }

  lemma BodyCons(fields: seq<Field>)
    requires fields != []
    ensures Body(fields) == FieldPieces(fields[0], Sep(fields)) + Body(fields[1..])
  {
  }

  lemma Associate(a: seq<string>, b: seq<string>, c: seq<string>)
    ensures a + (b + c) == (a + b) + c
  {
  }

  lemma BothAvoid(a: seq<string>, b: seq<string>, key: string)
    requires (forall i :: 0 <= i < |a| ==> a[i] != key) && (forall i :: 0 <= i < |b| ==> b[i] != key)
    ensures forall i :: 0 <= i < |a + b| ==> (a + b)[i] != key
  {
    forall i | 0 <= i < |a + b| ensures (a + b)[i] != key {
      assert (a + b)[i] == if i < |a| then a[i] else b[i - |a|];
    }
  }

  /** Where the key search lands: piece |pre| is the key, and the field's pieces follow. */
  lemma Locate(fields: seq<Field>, key: string) returns (i: nat, sep: string, post: seq<string>)
    requires AllWellFormed(fields) && IsKey(key) && First(fields, key).Some?
    ensures Punctuation(sep) && sep[0] in {' ', ','} && WellFormed(First(fields, key).value)
    ensures var ps, fp := Pieces(fields), FieldPieces(First(fields, key).value, sep);
            1 <= i && i + |fp| <= |ps| && ps[i..] == fp + post && KeyPiece(ps, key) == Some(i)
  {
    var pre;
    pre, sep, post := FindInBody(fields, key);
    i := 1 + |pre|;
    var ps, fp := Pieces(fields), FieldPieces(First(fields, key).value, sep);
    LocateIn(ps, ps[0], pre, fp, post, key);
  }

  lemma LocateIn(ps: seq<string>, head: string, pre: seq<string>, fp: seq<string>, post: seq<string>, key: string)
    requires ps == [head] + (pre + (fp + post)) && |fp| >= 2 && fp[0] == key
    requires forall i :: 0 <= i < |pre| ==> pre[i] != key
    ensures var i := 1 + |pre|;
            i + |fp| <= |ps| && ps[i..] == fp + post && KeyPiece(ps, key) == Some(i)
  {
    var i := 1 + |pre|;
    assert ps[i..] == fp + post;
    assert ps[i] == fp[0];
    assert forall j :: 1 <= j < i ==> ps[j] == pre[j - 1];
    FirstKeyPiece(ps, key, i);
  }

  lemma KeyIsQuoteFree(key: string)
    requires IsKey(key)
    ensures '"' !in key && '[' !in key
  {
    var i :| 0 <= i < |KEYS| && KEYS[i] == key;
    assert forall k :: 0 <= k < |key| ==> '_' <= key[k] <= 'z';
  }

  // ---- the parser reads each field back ----------------------------------------------------

  /** A key that no field carries is not found, whatever the values are. */
  lemma AbsentKey(fields: seq<Field>, key: string)
    requires AllWellFormed(fields) && IsKey(key) && First(fields, key).None?
    ensures FindSub(Printed(fields), InQuotes(key), 0) == None
  {
    var ps := Pieces(fields);
    PiecesQuoteFree(fields);
    NoFieldInBody(fields, key);
    KeyIsQuoteFree(key);
    assert forall i :: 1 <= i < |ps| ==> ps[i] == Body(fields)[i - 1];
    NoKeyPiece(ps, key);
    KeySearch(ps, key);
  }

  /** The colon behind the key at piece i starts piece j = i + 1. */
  lemma ColonOfKey(ps: seq<string>, key: string, i: nat, j: nat, c: nat)
    requires QuoteFree(ps) && ps != [] && '"' !in key && KeyPiece(ps, key) == Some(i)
    requires j == i + 1 && ps[j] != "" && ps[j][0] == ':' && c == Offset(ps, j)
    ensures ColonAfter(Joined(ps), key) == Some(c)
  {
    KeySearch(ps, key);
    KeyPieceFacts(ps, key);
    CharInPiece(ps, j, ':', 0);
    assert Offset(ps, j) == Offset(ps, i) + |key| + 1;
  }

  /** The quote behind a position inside piece i starts the next piece. */
  lemma QuoteBehind(ps: seq<string>, i: nat, pos: nat, q: nat)
    requires QuoteFree(ps) && i + 1 < |ps| && Offset(ps, i) <= pos + 1 <= Offset(ps, i) + |ps[i]|
    requires q == Offset(ps, i) + |ps[i]|
    ensures NextOf(Joined(ps), '"', Some(pos)) == Some(q)
  {
    PieceAt(ps, i);
    QuoteAfter(Joined(ps), Offset(ps, i), ps[i], pos, q);
  }

  /** Two consecutive quotes enclose a whole piece. */
  lemma BetweenQuotes(ps: seq<string>, i: nat, q: nat, e: nat, size: nat)
    requires 0 < i < |ps| - 1 && size > 0 && q + 1 == Offset(ps, i) && e == Offset(ps, i) + |ps[i]|
    ensures q < e <= |Joined(ps)| && Between(Joined(ps), Some(q), Some(e), size) == Some(Truncated(ps[i], size))
  {
    PieceAt(ps, i);
  }

  lemma ExtractSteps(t: string, key: string, size: nat, c: nat, q: nat, e: nat)
    requires size > 0 && q < e <= |t| && ColonAfter(t, key) == Some(c)
    requires NextOf(t, '"', Some(c)) == Some(q) && NextOf(t, '"', Some(q)) == Some(e)
    ensures ExtractString(t, key, size) == Between(t, Some(q), Some(e), size)
  {
  }

  /** After the key at piece i, a string value is piece v = i + 2. */
  lemma StringAfterKey(ps: seq<string>, key: string, i: nat, v: nat, size: nat)
    requires QuoteFree(ps) && ps != [] && '"' !in key && size > 0 && KeyPiece(ps, key) == Some(i)
    requires v == i + 2 && v + 1 < |ps| && ps[i + 1] != "" && ps[i + 1][0] == ':'
    ensures ExtractString(Joined(ps), key, size) == Some(Truncated(ps[v], size))
  {
    var j := i + 1;
    var c, q, e := Offset(ps, j), Offset(ps, v) - 1, Offset(ps, v) + |ps[v]|;
    ColonOfKey(ps, key, i, j, c);
    QuoteBehind(ps, j, c, q);
    QuoteBehind(ps, v, q, e);
    BetweenQuotes(ps, v, q, e, size);
    ExtractSteps(Joined(ps), key, size, c, q, e);
  }

  /** String fields are read back, cut to the size of their array. */
  lemma StringFieldRoundTrip(fields: seq<Field>, key: string, size: nat)
    requires AllWellFormed(fields) && IsKey(key) && key != "interval" && key != "readers" && size > 0
    ensures ExtractString(Printed(fields), key, size) ==
            match First(fields, key)
            case None => None
            case Some(f) => if f.StrField? then Some(Truncated(f.value, size)) else None
  {
    if First(fields, key).None? {
      AbsentKey(fields, key);
    } else {
      var i, sep, post := Locate(fields, key);
      var ps, f := Pieces(fields), First(fields, key).value;
      PiecesQuoteFree(fields);
      KeyIsQuoteFree(key);
      assert ps[i..][1] == ps[i + 1] && ps[i..][2] == ps[i + 2];
      StringAfterKey(ps, key, i, i + 2, size);
    }
  }

  // ---- the interval ---------------------------------------------------------------------

  /** The characters of ": number sep" once it stands in a text. */
  lemma NumberStands(t: string, o: nat, n: int, sep: string)
    requires sep != "" && Decimal.StandsAt(t, o, ": " + (Decimal.Print(n) + sep))
    ensures t[o + 1] == ' ' && Decimal.StandsAt(t, o + 2, Decimal.Print(n))
    ensures o + 2 + |Decimal.Print(n)| < |t| && t[o + 2 + |Decimal.Print(n)|] == sep[0]
  {
    var p, num := ": " + (Decimal.Print(n) + sep), Decimal.Print(n);
    assert p[1] == ' ' && t[o + 1] == p[1];
    forall k | 0 <= k < |num| ensures t[o + 2 + k] == num[k] {
      assert t[o + (2 + k)] == p[2 + k] == num[k];
    }
    assert t[o + (2 + |num|)] == p[2 + |num|] == sep[0];
  }

  lemma IntSteps(t: string, key: string, c: nat, n: int, default: int)
    requires ColonAfter(t, key) == Some(c) && NumberAt(t, c, n)
    ensures ExtractInt(t, key, default) == n
  {
  }

  /** atoi behind position c reads n. */
  ghost predicate NumberAt(t: string, c: nat, n: int) { c < |t| && Atoi(t, c + 1) == n }

  lemma NumberInPiece(ps: seq<string>, j: nat, c: nat, n: int, sep: string)
    requires j < |ps| && c == Offset(ps, j) && sep != "" && !Decimal.IsDigit(sep[0])
    requires ps[j] == ": " + (Decimal.Print(n) + sep)
    ensures NumberAt(Joined(ps), c, n)
  {
    PieceStands(ps, j);
    NumberAfterColon(Joined(ps), c, n, sep);
  }

  lemma PieceStands(ps: seq<string>, j: nat)
    requires j < |ps|
    ensures Decimal.StandsAt(Joined(ps), Offset(ps, j), ps[j])
  {
    PieceAt(ps, j);
    PieceChars(Joined(ps), Offset(ps, j), ps[j], j == |ps| - 1);
  }

  /** atoi behind the colon reads the number. */
  lemma NumberAfterColon(t: string, o: nat, n: int, sep: string)
    requires sep != "" && !Decimal.IsDigit(sep[0])
    requires Decimal.StandsAt(t, o, ": " + (Decimal.Print(n) + sep))
    ensures NumberAt(t, o, n)
  {
    NumberStands(t, o, n, sep);
    Decimal.ScanPrintedInt(t, o + 2, n);
    Decimal.SkipOneSpace(t, o + 1);
  }

  lemma IntervalRoundTrip(fields: seq<Field>, key: string, default: int)
    requires AllWellFormed(fields) && IsKey(key) && (First(fields, key).Some? ==> First(fields, key).value.IntField?)
    ensures ExtractInt(Printed(fields), key, default) ==
            match First(fields, key)
            case None => default
            case Some(f) => f.n
  {
    if First(fields, key).None? {
      AbsentKey(fields, key);
    } else {
      var i, sep, post := Locate(fields, key);
      var ps, f := Pieces(fields), First(fields, key).value;
      PiecesQuoteFree(fields);
      KeyIsQuoteFree(key);
      var j := i + 1;
      assert ps[j] == ps[i..][1];
      NumberInPiece(ps, j, Offset(ps, j), f.n, sep);
      ColonOfKey(ps, key, i, j, Offset(ps, j));
      IntSteps(Joined(ps), key, Offset(ps, j), f.n, default);
    }
  }

  // ---- the reader list --------------------------------------------------------------------

  /** Names up to and including the first that contains a closing bracket: that bracket is
      the one the scan takes for the end of the list. */
  function UpToBracket(items: seq<string>): (r: seq<string>)
    ensures |r| <= |items| && r == items[..|r|]
  {
    if items == [] then []
    else if ']' in items[0] then [items[0]]
    else [items[0]] + UpToBracket(items[1..])
  }

  function Cut(names: seq<string>): (r: seq<string>)
    ensures |r| == |names|
  {
    if names == [] then [] else [Truncated(names[0], NAME_SIZE)] + Cut(names[1..])
  }

  /** k turns of the scan loop from a given state. */
  function TurnsFrom(next: nat -> Option<Found>, s: Scan, k: nat): Scan
    decreases k
  {
    if k == 0 then s else TurnsFrom(next, Turn(next, s), k - 1)
  }

  lemma {:induction false} TurnsFromTurn(next: nat -> Option<Found>, s: Scan, k: nat)
    ensures TurnsFrom(next, Turn(next, s), k) == Turn(next, TurnsFrom(next, s, k))
    decreases k
  {
    if k > 0 {
      TurnsFromTurn(next, Turn(next, s), k - 1);
    }
  }

  lemma {:induction false} TurnsIsTurnsFrom(next: nat -> Option<Found>, start: nat, k: nat)
    ensures Turns(next, start, k) == TurnsFrom(next, Scan([], start, false), k)
    decreases k
  {
    if k > 0 {
      TurnsIsTurnsFrom(next, start, k - 1);
      TurnsStep(next, start, k - 1);
      TurnsFromTurn(next, Scan([], start, false), k - 1);
    }
  }

  lemma {:induction false} TurnsFromStopped(next: nat -> Option<Found>, s: Scan, k: nat)
    requires s.stopped
    ensures TurnsFrom(next, s, k) == s
    decreases k
  {
    if k > 0 {
      TurnsFromStopped(next, s, k - 1);
    }
  }

  /** A turn that takes a name, then the remaining turns. */
  lemma AfterName(next: nat -> Option<Found>, s: Scan, name: string, cur: nat, k: nat)
    requires !s.stopped && k > 0 && next(s.cur) == Some(Found(name, cur))
    ensures TurnsFrom(next, s, k) == TurnsFrom(next, Scan(s.names + [name], cur, false), k - 1)
  {
  }

  lemma AfterNothing(next: nat -> Option<Found>, s: Scan, k: nat)
    requires !s.stopped && next(s.cur) == None
    ensures TurnsFrom(next, s, k).names == s.names
  {
    if k > 0 {
      TurnsFromStopped(next, s.(stopped := true), k - 1);
    }
  }

  lemma TakeCons(names: seq<string>, x: string, rest: seq<string>, k: nat)
    requires k > 0
    ensures (names + [Truncated(x, NAME_SIZE)]) + Cut(Take(rest, k - 1)) == names + Cut(Take([x] + rest, k))
  {
    var all := Take([x] + rest, k);
    assert all == [x] + Take(rest, k - 1);
    assert all[0] == x && all[1..] == Take(rest, k - 1);
  }

  /** From `cur` on, `next` yields exactly the given names, cut to their arrays. */
  ghost predicate Feeds(next: nat -> Option<Found>, cur: nat, items: seq<string>)
    decreases |items|
  {
    if items == [] then next(cur) == None
    else
      && next(cur).Some? && next(cur).value.name == Truncated(items[0], NAME_SIZE)
      && Feeds(next, next(cur).value.next, items[1..])
  }

  lemma FeedsCons(next: nat -> Option<Found>, cur: nat, x: string, cur': nat, rest: seq<string>)
    requires next(cur) == Some(Found(Truncated(x, NAME_SIZE), cur')) && Feeds(next, cur', rest)
    ensures Feeds(next, cur, [x] + rest)
  {
    assert ([x] + rest)[1..] == rest;
  }

  /** What the loop collects from such a source: the first k names. */
  lemma {:induction false} FeedsTurns(next: nat -> Option<Found>, names: seq<string>, cur: nat, items: seq<string>, k: nat)
    requires Feeds(next, cur, items)
    ensures TurnsFrom(next, Scan(names, cur, false), k).names == names + Cut(Take(items, k))
    decreases |items|
  {
    var s := Scan(names, cur, false);
    if items == [] {
      AfterNothing(next, s, k);
    } else if k == 0 {
      assert Cut(Take(items, 0)) == [];
    } else {
      var name, cur' := Truncated(items[0], NAME_SIZE), next(cur).value.next;
      AfterName(next, s, name, cur', k);
      FeedsTurns(next, names + [name], cur', items[1..], k - 1);
      TakeCons(names, items[0], items[1..], k);
      assert [items[0]] + items[1..] == items;
    }
  }

  /** The bracket, if any, does not come before position x. */
  ghost predicate NotBefore(rb: Option<nat>, x: nat) { rb.Some? ==> rb.value >= x }

  /** rb is the first closing bracket of t from lb on. */
  ghost predicate IsNextBracket(t: string, lb: nat, rb: Option<nat>) {
    && (rb.Some? ==> lb <= rb.value < |t| && t[rb.value] == ']')
    && (forall x :: lb <= x < |t| && t[x] == ']' ==> rb.Some? && rb.value <= x)
  }

  lemma NextBracket(t: string, lb: nat)
    ensures IsNextBracket(t, lb, IndexOf(t, ']', lb))
  {
    forall x | lb <= x < |t| && t[x] == ']' ensures IndexOf(t, ']', lb).Some? && IndexOf(t, ']', lb).value <= x {
      FoundBefore(t, ']', lb, x);
    }
  }

  /** One step of the scan, given the two quotes it finds and the piece p between them. */
  lemma NameStep(t: string, cur: nat, rb: Option<nat>, q: nat, o: nat, e: nat, o': nat, p: string)
    requires IndexOf(t, '"', cur) == Some(q) && NextOf(t, '"', Some(q)) == Some(e)
    requires o == q + 1 && o <= e <= |t| && o' == e + 1 && p == t[o..e]
    requires NotBefore(rb, o)
    ensures NextName(t, cur, rb) == Some(Found(Truncated(p, NAME_SIZE), o'))
  {
  }

  /** From inside piece j the scan takes piece v = j + 1, unless the bracket came before it. */
  lemma TakesPiece(ps: seq<string>, t: string, j: nat, v: nat, cur: nat, o: nat, o': nat, rb: Option<nat>)
    requires QuoteFree(ps) && v == j + 1 && v + 1 < |ps| && Offset(ps, j) <= cur <= Offset(ps, j) + |ps[j]|
    requires t == Joined(ps) && o == Offset(ps, v) && o' == o + |ps[v]| + 1 && NotBefore(rb, o)
    ensures NextName(t, cur, rb) == Some(Found(Truncated(ps[v], NAME_SIZE), o'))
  {
    NextQuote(ps, j, cur);
    QuoteBehind(ps, v, o - 1, o' - 1);
    PieceAt(ps, v);
    NameStep(t, cur, rb, o - 1, o, o' - 1, o', ps[v]);
  }

  /** Once the bracket lies behind the cursor, the scan stops. */
  lemma StopsBehindBracket(json: string, cur: nat, b: nat)
    requires b <= cur
    ensures NextName(json, cur, Some(b)) == None
  {
  }

  /** A piece without a bracket: the search result moves past it. */
  lemma BracketPastPiece(t: string, o: nat, p: string, lb: nat, rb: Option<nat>)
    requires HasPiece(t, o, p, false) && IsNextBracket(t, lb, rb) && NotBefore(rb, o) && ']' !in p
    ensures NotBefore(rb, o + |p| + 1)
  {
    PieceChars(t, o, p, false);
  }

  /** A piece with a bracket: the search result is at or before it. */
  lemma BracketInPiece(t: string, o: nat, p: string, last: bool, lb: nat, rb: Option<nat>)
    requires HasPiece(t, o, p, last) && IsNextBracket(t, lb, rb) && lb <= o && ']' in p
    ensures rb.Some? && rb.value < o + |p|
  {
    PieceChars(t, o, p, last);
    var k :| 0 <= k < |p| && p[k] == ']';
    assert t[o + k] == ']';
  }

  /** What the rest of the list looks like: its first piece is j. */
  ghost predicate AtRest(ps: seq<string>, j: nat, items: seq<string>, sep: string, post: seq<string>) {
    QuoteFree(ps) && j < |ps| && ps[j..] == MoreItems(items, sep) + post
  }

  lemma RestStep(ps: seq<string>, j: nat, items: seq<string>, sep: string, post: seq<string>)
    requires AtRest(ps, j, items, sep, post)
    ensures items == [] ==> ps[j] == "]" + sep
    ensures items != [] ==> j + 2 < |ps| && ps[j] == ", " && ps[j + 1] == items[0] && AtRest(ps, j + 2, items[1..], sep, post)
  {
    var ms := MoreItems(items, sep);
    assert ps[j] == ps[j..][0] == ms[0];
    if items != [] {
      var tail := MoreItems(items[1..], sep);
      assert |tail| >= 1;
      assert ps[j + 1] == ps[j..][1] == ms[1];
      assert ps[j + 2..] == ps[j..][2..] == tail + post;
    }
  }

  /** From the start of the rest of the list the scan yields its names, up to a bracket. */
  lemma {:induction false} FeedsRest(ps: seq<string>, t: string, j: nat, o: nat, items: seq<string>, sep: string, post: seq<string>,
                                     lb: nat, rb: Option<nat>)
    requires AtRest(ps, j, items, sep, post) && t == Joined(ps) && o == Offset(ps, j)
    requires IsNextBracket(t, lb, rb) && lb <= o && NotBefore(rb, o)
    ensures Feeds(Scanner(t, rb), o, UpToBracket(items))
    decreases |items|, 1
  {
    RestStep(ps, j, items, sep, post);
    PieceAt(ps, j);
    if items == [] {
      ClosingBracket(t, o, ps[j], j == |ps| - 1, lb, rb);
    } else {
      assert ']' !in ps[j];
      BracketPastPiece(t, o, ps[j], lb, rb);
      FeedsItem(ps, t, j, j + 1, o, items, sep, post, lb, rb);
    }
  }

  /** At the closing piece the scan stops. */
  lemma ClosingBracket(t: string, o: nat, p: string, last: bool, lb: nat, rb: Option<nat>)
    requires HasPiece(t, o, p, last) && p != "" && p[0] == ']' && IsNextBracket(t, lb, rb) && lb <= o
    ensures NextName(t, o, rb) == None
  {
    PieceChars(t, o, p, last);
    assert t[o] == ']';
    StopsBehindBracket(t, o, rb.value);
  }

  /** From inside piece j the scan takes the item in piece v = j + 1; it then stops if the
      item held the bracket, and goes on with the rest otherwise. */
  lemma {:induction false} FeedsItem(ps: seq<string>, t: string, j: nat, v: nat, cur: nat, items: seq<string>, sep: string, post: seq<string>,
                                     lb: nat, rb: Option<nat>)
    requires items != [] && v == j + 1 && v < |ps| && ps[v] == items[0] && AtRest(ps, j + 2, items[1..], sep, post)
    requires t == Joined(ps) && Offset(ps, j) <= cur <= Offset(ps, j) + |ps[j]|
    requires IsNextBracket(t, lb, rb) && lb <= Offset(ps, v) && NotBefore(rb, Offset(ps, v))
    ensures Feeds(Scanner(t, rb), cur, UpToBracket(items))
    decreases |items|, 0
  {
    var next, x, o := Scanner(t, rb), items[0], Offset(ps, v);
    var o' := o + |x| + 1;
    TakesPiece(ps, t, j, v, cur, o, o', rb);
    PieceAt(ps, v);
    if ']' in x {
      BracketInPiece(t, o, x, false, lb, rb);
      StopsBehindBracket(t, o', rb.value);
      assert Feeds(next, o', []);
      FeedsCons(next, cur, x, o', []);
      assert [x] + [] == UpToBracket(items);
    } else {
      BracketPastPiece(t, o, x, lb, rb);
      FeedsRest(ps, t, j + 2, o', items[1..], sep, post, lb, rb);
      FeedsCons(next, cur, x, o', UpToBracket(items[1..]));
    }
  }

  lemma BoundsAre(json: string, key: string, rp: nat, lb: nat)
    requires FindSub(json, InQuotes(key), 0) == Some(rp) && IndexOf(json, '[', rp) == Some(lb)
    ensures ListBounds(json, key) == Some(Span(lb, IndexOf(json, ']', lb)))
  {
  }

  lemma ReadersAre(json: string, key: string, slots: nat, lb: nat, rb: Option<nat>)
    requires ListBounds(json, key) == Some(Span(lb, rb))
    ensures Readers(json, key, slots) == Turns(Scanner(json, rb), lb + 1, slots).names
  {
  }

  lemma NoReaders(json: string, key: string, slots: nat)
    requires FindSub(json, InQuotes(key), 0) == None
    ensures Readers(json, key, slots) == []
  {
  }

  /** Neither the key nor its quotes contain '[': the search finds the one behind ": ". */
  lemma BracketBehindKey(ps: seq<string>, i: nat)
    requires 1 <= i && i + 1 < |ps| && '[' !in ps[i]
    requires |ps[i + 1]| >= 3 && ps[i + 1][0] == ':' && ps[i + 1][1] == ' ' && ps[i + 1][2] == '['
    ensures Offset(ps, i) >= 1 && IndexOf(Joined(ps), '[', Offset(ps, i) - 1) == Some(Offset(ps, i + 1) + 2)
  {
    var t, o, o1 := Joined(ps), Offset(ps, i), Offset(ps, i + 1);
    PieceAt(ps, i - 1);
    PieceAt(ps, i);
    PieceChars(t, o, ps[i], false);
    PieceAt(ps, i + 1);
    PieceChars(t, o1, ps[i + 1], i + 1 == |ps| - 1);
    FirstIs(t, '[', o - 1, o1 + 2);
  }

  /** The opening bracket: after the key at piece i it is the third character of piece i + 1. */
  lemma OpeningBracket(ps: seq<string>, key: string, i: nat, j: nat, lb: nat)
    requires QuoteFree(ps) && ps != [] && '"' !in key && '[' !in key && KeyPiece(ps, key) == Some(i) && j == i + 1 < |ps|
    requires |ps[j]| >= 3 && ps[j][0] == ':' && ps[j][1] == ' ' && ps[j][2] == '['
    requires lb == Offset(ps, j) + 2
    ensures ListBounds(Joined(ps), key) == Some(Span(lb, IndexOf(Joined(ps), ']', lb)))
  {
    KeyPieceFacts(ps, key);
    BracketBehindKey(ps, i);
    KeySearch(ps, key);
    BoundsAre(Joined(ps), key, Offset(ps, i) - 1, lb);
  }

  lemma ScanFirst(ps: seq<string>, t: string, j: nat, v: nat, cur: nat, items: seq<string>, sep: string, post: seq<string>,
                  lb: nat, rb: Option<nat>)
    requires v == j + 1 && v + 1 < |ps| && items != [] && |ps[j]| == 3 && ']' !in ps[j] && ps[v] == items[0]
    requires AtRest(ps, j + 2, items[1..], sep, post)
    requires t == Joined(ps) && lb == Offset(ps, j) + 2 && cur == lb + 1 && IsNextBracket(t, lb, rb)
    ensures Feeds(Scanner(t, rb), cur, UpToBracket(items))
  {
    CursorBeforeFirst(ps, t, j, v, cur, lb, rb);
    FeedsItem(ps, t, j, v, cur, items, sep, post, lb, rb);
  }

  lemma CursorBeforeFirst(ps: seq<string>, t: string, j: nat, v: nat, cur: nat, lb: nat, rb: Option<nat>)
    requires v == j + 1 < |ps| && |ps[j]| == 3 && ']' !in ps[j]
    requires t == Joined(ps) && lb == Offset(ps, j) + 2 && cur == lb + 1 && IsNextBracket(t, lb, rb)
    ensures Offset(ps, j) <= cur <= Offset(ps, j) + |ps[j]| && lb <= Offset(ps, v) && NotBefore(rb, Offset(ps, v))
  {
    OffsetStep(ps, j, v);
    NoBracketYet(ps, t, j, Offset(ps, j), lb, rb);
  }

  lemma NoBracketYet(ps: seq<string>, t: string, j: nat, o: nat, lb: nat, rb: Option<nat>)
    requires j + 1 < |ps| && |ps[j]| == 3 && ']' !in ps[j]
    requires t == Joined(ps) && o == Offset(ps, j) && lb == o + 2 && IsNextBracket(t, lb, rb)
    ensures NotBefore(rb, o + 4)
  {
    PieceAt(ps, j);
    BracketPastPiece(t, o, ps[j], lb, rb);
  }

  lemma ScanEmpty(ps: seq<string>, t: string, j: nat, cur: nat, lb: nat, rb: Option<nat>)
    requires j < |ps| && |ps[j]| >= 4 && ps[j][3] == ']'
    requires t == Joined(ps) && lb == Offset(ps, j) + 2 && cur == lb + 1 && IsNextBracket(t, lb, rb)
    ensures Feeds(Scanner(t, rb), cur, [])
  {
    PieceAt(ps, j);
    PieceChars(t, Offset(ps, j), ps[j], j == |ps| - 1);
    assert t[cur] == ']';
    StopsBehindBracket(t, cur, rb.value);
  }

  lemma FeedsReaders(t: string, key: string, lb: nat, cur: nat, rb: Option<nat>, items: seq<string>, slots: nat)
    requires ListBounds(t, key) == Some(Span(lb, rb)) && cur == lb + 1 && Feeds(Scanner(t, rb), cur, items)
    ensures Readers(t, key, slots) == Cut(Take(items, slots))
  {
    ReadersAre(t, key, slots, lb, rb);
    TurnsIsTurnsFrom(Scanner(t, rb), cur, slots);
    FeedsTurns(Scanner(t, rb), [], cur, items, slots);
  }

  /** The names a readers field stands for. */
  function Listed(f: Option<Field>, slots: nat): seq<string> {
    if f.Some? && f.value.ListField? then Cut(Take(UpToBracket(f.value.items), slots)) else []
  }

  /** Piece j opens a list, and the items and the rest follow it. */
  ghost predicate ListAhead(ps: seq<string>, j: nat, items: seq<string>, sep: string, post: seq<string>) {
    && j < |ps| && |ps[j]| >= 3 && ps[j][0] == ':' && ps[j][1] == ' ' && ps[j][2] == '['
    && (items == [] ==> |ps[j]| >= 4 && ps[j][3] == ']')
    && (items != [] ==> |ps[j]| == 3 && ']' !in ps[j] && j + 2 < |ps| && ps[j + 1] == items[0] && AtRest(ps, j + 2, items[1..], sep, post))
  }

  lemma ScanList(ps: seq<string>, t: string, j: nat, cur: nat, items: seq<string>, sep: string, post: seq<string>,
                 lb: nat, rb: Option<nat>)
    requires ListAhead(ps, j, items, sep, post)
    requires t == Joined(ps) && lb == Offset(ps, j) + 2 && cur == lb + 1 && IsNextBracket(t, lb, rb)
    ensures Feeds(Scanner(t, rb), cur, UpToBracket(items))
  {
    if items == [] {
      ScanEmpty(ps, t, j, cur, lb, rb);
    } else {
      ScanFirst(ps, t, j, j + 1, cur, items, sep, post, lb, rb);
    }
  }

  lemma ReadersFromPieces(ps: seq<string>, key: string, i: nat, items: seq<string>, sep: string, post: seq<string>, slots: nat)
    requires QuoteFree(ps) && ps != [] && '"' !in key && '[' !in key && KeyPiece(ps, key) == Some(i)
    requires ps[i..] == FieldPieces(ListField(key, items), sep) + post
    ensures Readers(Joined(ps), key, slots) == Cut(Take(UpToBracket(items), slots))
  {
    var j := i + 1;
    ListPieces(ps, key, i, j, items, sep, post);
    ReadersFromList(ps, Joined(ps), key, i, j, items, sep, post, UpToBracket(items), slots);
  }

  lemma ReadersFromList(ps: seq<string>, t: string, key: string, i: nat, j: nat, items: seq<string>, sep: string, post: seq<string>,
                        fed: seq<string>, slots: nat)
    requires QuoteFree(ps) && ps != [] && '"' !in key && '[' !in key && KeyPiece(ps, key) == Some(i)
    requires j == i + 1 && ListAhead(ps, j, items, sep, post) && t == Joined(ps) && fed == UpToBracket(items)
    ensures Readers(t, key, slots) == Cut(Take(fed, slots))
  {
    var lb := Offset(ps, j) + 2;
    OpeningBracket(ps, key, i, j, lb);
    NextBracket(t, lb);
    ReadersFrom(ps, t, key, j, items, sep, post, fed, slots, lb, lb + 1, IndexOf(t, ']', lb));
  }

  lemma ReadersFrom(ps: seq<string>, t: string, key: string, j: nat, items: seq<string>, sep: string, post: seq<string>,
                    fed: seq<string>, slots: nat, lb: nat, cur: nat, rb: Option<nat>)
    requires ListAhead(ps, j, items, sep, post) && t == Joined(ps) && fed == UpToBracket(items)
    requires lb == Offset(ps, j) + 2 && cur == lb + 1 && IsNextBracket(t, lb, rb) && ListBounds(t, key) == Some(Span(lb, rb))
    ensures Readers(t, key, slots) == Cut(Take(fed, slots))
  {
    ScanList(ps, t, j, cur, items, sep, post, lb, rb);
    FeedsReaders(t, key, lb, cur, rb, fed, slots);
  }

  /** The reader list is read back in order, each name cut to its array, up to the first
      name that contains a closing bracket and up to the number of slots. */
  lemma ReadersRoundTrip(fields: seq<Field>, key: string, slots: nat)
    requires AllWellFormed(fields) && IsKey(key) && (First(fields, key).Some? ==> First(fields, key).value.ListField?)
    ensures Readers(Printed(fields), key, slots) == Listed(First(fields, key), slots)
  {
    if First(fields, key).None? {
      AbsentKey(fields, key);
      NoReaders(Printed(fields), key, slots);
    } else {
      var i, sep, post := Locate(fields, key);
      var f := First(fields, key).value;
      PiecesQuoteFree(fields);
      KeyIsQuoteFree(key);
      ReadersFromPieces(Pieces(fields), key, i, f.items, sep, post, slots);
    }
  }

  lemma ListPieces(ps: seq<string>, key: string, i: nat, j: nat, items: seq<string>, sep: string, post: seq<string>)
    requires QuoteFree(ps) && j == i + 1 <= |ps| && ps[i..] == FieldPieces(ListField(key, items), sep) + post
    ensures ListAhead(ps, j, items, sep, post)
  {
    var fp := FieldPieces(ListField(key, items), sep);
    assert ps[i + 1] == ps[i..][1] == fp[1];
    if items == [] {
      assert fp[1] == ": []" + sep;
    } else {
      var ms := MoreItems(items[1..], sep);
      assert |ms| >= 1;
      assert fp == [key, ": [", items[0]] + ms;
      assert ps[i + 2] == ps[i..][2] == fp[2];
      assert ps[i + 3..] == ps[i..][3..] == ms + post;
    }
  }

  // ---- the whole configuration -----------------------------------------------------------

  /** The value of a string key: its first field, cut to its array, or the default. */
  function Text(fields: seq<Field>, key: string, size: nat, default: string): string
    requires size > 0
  {
    var f := First(fields, key);
    if f.Some? && f.value.StrField? then Truncated(f.value.value, size) else default
  }

  function Interval(fields: seq<Field>): int {
    var f := First(fields, "interval");
    if f.Some? && f.value.IntField? && f.value.n >= 1 then f.value.n else 5
  }

  /** What the fields say, without any text: the first field of each key, strings cut to
      their arrays, defaults for absent keys, and an interval of at least one second. */
  function Meant(fields: seq<Field>, slots: nat): Settings {
    Settings(Interval(fields),
             Text(fields, "datadir", 4096, "/var/lib/svgd-collect/rrd"),
             Text(fields, "hostname", 128, "localhost"),
             Text(fields, "rrdcached_addr", 256, ""),
             Text(fields, "metrics_addr", 128, ""),
             Listed(First(fields, "readers"), slots))
  }

  lemma TextRoundTrip(fields: seq<Field>, key: string, size: nat, default: string)
    requires AllWellFormed(fields) && IsKey(key) && key != "interval" && key != "readers" && size > 0
    ensures OrElse(ExtractString(Printed(fields), key, size), default) == Text(fields, key, size, default)
  {
    StringFieldRoundTrip(fields, key, size);
  }

  lemma KnownKeys()
    ensures forall i :: 0 <= i < |KEYS| ==> IsKey(KEYS[i])
    ensures forall i :: 1 <= i < 5 ==> KEYS[i] != "interval" && KEYS[i] != "readers"
  {
  }

  lemma KindOfKey(fields: seq<Field>, key: string)
    requires AllWellFormed(fields)
    ensures First(fields, key).Some? && key == "interval" ==> First(fields, key).value.IntField?
    ensures First(fields, key).Some? && key == "readers" ==> First(fields, key).value.ListField?
  {
    var f := First(fields, key);
    if f.Some? {
      assert WellFormed(f.value);
    }
  }

  /** Main theorem: loading a printed configuration yields exactly what its fields say, for
      any fields in any order. */
  lemma ParserInvertsPrinter(fields: seq<Field>)
    requires AllWellFormed(fields)
    ensures Parsed(Printed(fields)) == Meant(fields, MAX_READERS)
  {
    KnownKeys();
    KindOfKey(fields, KEYS[0]);
    KindOfKey(fields, KEYS[5]);
    IntervalRoundTrip(fields, KEYS[0], 5);
    TextRoundTrip(fields, KEYS[1], 4096, DEFAULTS.datadir);
    TextRoundTrip(fields, KEYS[2], 128, DEFAULTS.host);
    TextRoundTrip(fields, KEYS[3], 256, "");
    TextRoundTrip(fields, KEYS[4], 128, "");
    ReadersRoundTrip(fields, KEYS[5], MAX_READERS);
  }

  lemma {:induction false} BracketLength(items: seq<string>, j: nat)
    ensures |UpToBracket(items)| > j <==> j < |items| && forall i :: 0 <= i < j ==> ']' !in items[i]
    decreases |items|
  {
    if items != [] && ']' !in items[0] && j > 0 {
      BracketLength(items[1..], j - 1);
      assert forall i :: 1 <= i < |items| ==> items[i] == items[1..][i - 1];
    }
  }

  /** The names that the slots take have no closing bracket, except perhaps the last. */
  ghost predicate BracketsOnlyLast(items: seq<string>, slots: nat) {
    forall i :: 0 <= i < |items| - 1 && i < slots - 1 ==> ']' !in items[i]
  }

  lemma BracketsInList(items: seq<string>, slots: nat)
    ensures |Take(UpToBracket(items), slots)| == |Take(items, slots)| <==> BracketsOnlyLast(items, slots)
    ensures Take(UpToBracket(items), slots) <= Take(items, slots)
  {
    var u := UpToBracket(items);
    var n := if slots < |items| then slots else |items|;
    if n > 0 {
      BracketLength(items, n - 1);
      assert Take(items, slots) == items[..n];
      if |u| >= n {
        assert Take(u, slots) == items[..n];
      } else {
        assert |Take(u, slots)| < n;
      }
    }
  }

  lemma {:induction false} CutPrefix(a: seq<string>, b: seq<string>)
    requires a <= b
    ensures Cut(a) == Cut(b) <==> |a| == |b|
  {
    if |a| == |b| {
      assert a == b;
    }
  }

  /** Exactly when closing brackets do no harm: loading a printed configuration with a reader
      list yields all names that the 16 slots take, each cut to its array, if and only if only
      the last of them contains one, if any. */
  lemma BracketsAreHarmless(fields: seq<Field>, items: seq<string>)
    requires AllWellFormed(fields) && First(fields, "readers") == Some(ListField("readers", items))
    ensures Parsed(Printed(fields)).readers == Cut(Take(items, MAX_READERS)) <==> BracketsOnlyLast(items, MAX_READERS)
  {
    ParserInvertsPrinter(fields);
    BracketsInList(items, MAX_READERS);
    CutPrefix(Take(UpToBracket(items), MAX_READERS), Take(items, MAX_READERS));
  }
}
