/** The Prometheus endpoint as an object (src/prom.c): two growable snapshot arrays, the
    calls of the collection thread, and rendering with the built-in rule table. The
    interleaving of these calls is the subject of Snapshot; here each call runs alone. */
module Prom {
  import opened CStrings
  import opened Lists
  import opened Metrics
  import opened Rules
  import opened Exposition
  import opened Grouping
  import opened Render
  import opened Pieces
  import RuleTable
  import Renderer
  import D = DString
  import SnapArray

  /** snap_buf_t: `items` is the allocation, of which `count` metrics are in use. */
  class SnapBuf {
    var items: seq<SnapMetric>
    var count: nat
    ghost var moved: nat

    ghost predicate Valid()
      reads this
    {
      count <= |items|
    }

    ghost function Size(): SnapArray.Size
      reads this
    {
      SnapArray.Size(count, |items|, moved)
    }

    ghost function List(): seq<SnapMetric>
      requires count <= |items|
      reads this
    {
      items[..count]
    }

    constructor ()
      ensures Valid() && List() == [] && Size() == SnapArray.EMPTY
    {
      items, count, moved := [], 0, 0;
    }

    /** A new cycle: the array is empty again and keeps its allocation. */
    method Clear()
      requires Valid()
      modifies this`count
      ensures Valid() && List() == [] && Size() == SnapArray.Apply(old(Size()), SnapArray.Clear)
    {
      count := 0;
    }

    /** sb_reserve for one more element; `ok` is the allocator's answer. realloc keeps the
        old elements and leaves the new ones unspecified. */
    method Reserve(ok: bool)
      requires Valid()
      modifies this`items, this`moved
      ensures Valid() && List() == old(List()) && Size() == SnapArray.Reserve(old(Size()), ok)
    {
      if |items| >= count + 1 {
        return;
      }
      var nc := D.DoublingLoop(|items|, SnapArray.FIRST_CAP, count + 1);
      if !ok {
        return;
      }
      var junk := new SnapMetric[nc - |items|];
      moved := moved + |items|;
      items := items + junk[..];
    }

    /** The append of prom_snapshot_add: dropped exactly when the array is full and the
        allocator refuses to grow it. */
    method Add(m: Metric, ok: bool)
      requires Valid()
      modifies this
      ensures Valid() && Size() == SnapArray.Apply(old(Size()), SnapArray.Append(ok))
      ensures List() == if old(count) == old(|items|) && !ok then old(List()) else old(List()) + [CopyMetric(m)]
    {
      Reserve(ok);
      if count < |items| {
        items := items[count := CopyMetric(m)];
        count := count + 1;
      }
    }
  }

  ghost function Objects(b: SnapBuf?): set<object> { if b == null then {} else {b} }

  /** g_staged and g_published with the calls that use them. */
  class Store {
    var staged: SnapBuf?
    var published: SnapBuf?

    ghost predicate Valid()
      reads this, staged, published
    {
      && (staged != null ==> staged.Valid())
      && (published != null ==> published.Valid())
      && (staged != null && published != null ==> staged != published)
    }

    /** The store and its buffers. */
    ghost function Footprint(): set<object>
      reads this
    {
      {this} + Objects(staged) + Objects(published)
    }

    ghost function Staged(): seq<SnapMetric>
      requires Valid()
      reads this, staged, published
    {
      if staged == null then [] else staged.List()
    }

    ghost function Published(): seq<SnapMetric>
      requires Valid()
      reads this, staged, published
    {
      if published == null then [] else published.List()
    }

    constructor ()
      ensures Valid() && Staged() == [] && Published() == [] && Footprint() == {this}
    {
      staged, published := null, null;
    }

    /** Starts a cycle with nothing staged, whatever the buffer held two cycles ago. */
    method Begin(ok: bool)
      requires Valid()
      modifies this`staged, staged
      ensures Valid() && Staged() == [] && published == old(published) && Published() == old(Published())
      ensures fresh(Footprint() - old(Footprint()))
    {
      if staged == null && ok {
        staged := new SnapBuf();
      }
      if staged != null {
        staged.Clear();
      }
    }

    /** Stages one metric; `okBuf` and `okArray` are the allocator's answers. */
    method Add(m: Metric, okBuf: bool, okArray: bool)
      requires Valid()
      modifies this`staged, staged
      ensures Valid() && published == old(published) && Published() == old(Published())
      ensures fresh(Footprint() - old(Footprint()))
      ensures Staged() == old(Staged()) + [CopyMetric(m)] || (Staged() == old(Staged()) && !(okBuf && okArray))
    {
      if staged == null && okBuf {
        staged := new SnapBuf();
      }
      if staged == null {
        return;
      }
      staged.Add(m, okArray);
    }

    /** The swap: what was staged is published, and the old buffer is reused. */
    method Publish()
      requires Valid()
      modifies this
      ensures Valid() && Published() == old(Staged()) && Staged() == old(Published())
      ensures published == old(staged) && staged == old(published) && Footprint() == old(Footprint())
    {
      var tmp := published;
      published := staged;
      staged := tmp;
    }

    /** prom_render: copies the published list and renders the copy. An empty snapshot
        gives the empty text. Otherwise the text has, for some order qsort may leave, a line
        for each item in turn; whole lines may be missing if appends to the text failed, and
        the label list of a sample may have lost pieces if appends to that failed (`reliable`
        and `labelsOk` say that none does; `reliable` covers all other allocations, too). */
    method Render(fmt: real -> string, reliable: bool, labelsOk: bool) returns (out: string, ghost es: seq<Entry>)
      requires Valid()
      ensures Published() == [] ==> out == ""
      ensures Published() != [] ==>
        || (out == "" && !reliable)
        || (QsortResult(Builtin(fmt), Published(), es)
            && Puts("", out, Written(Parts(Builtin(fmt), Published(), es)), labelsOk, reliable)
            && (labelsOk ==> LinesOf(out, Written(Parts(Builtin(fmt), Published(), es)), reliable)))
    {
      es := [];
      if published == null || published.count == 0 {
        return "", [];
      }
      var oom: bool := *;
      if oom && !reliable {
        return "", [];
      }
      var copy := published.items[..published.count];
      out, es := Renderer.RenderList(Builtin(fmt), copy, reliable, labelsOk);
    }
  }

  /** The rendering style of the program, for a given value printer. */
  function Builtin(fmt: real -> string): Style {
    Style(RuleTable.Table(), PromType, fmt)
  }

  lemma BuiltinIsGood(fmt: real -> string)
    requires forall v :: IsToken(Shown(Builtin(fmt), v))
    ensures GoodStyle(Builtin(fmt))
  {
    RuleTable.TableIsGood();
    forall t ensures IsName(Kind(Builtin(fmt), t)) {
      PromTypeIsName(t);
    }
  }

  /** What a scraper reads: for every non-empty snapshot and every order qsort may leave,
      the rendered text parses, with the built-in table, into family blocks in strictly
      increasing order, each headed once by its HELP and TYPE lines, holding exactly the
      samples of the known metrics. */
  lemma ScrapeIsCorrect(fmt: real -> string, ms: seq<SnapMetric>, es: seq<Entry>) returns (gs: seq<Block<Item>>)
    requires forall v :: IsToken(Shown(Builtin(fmt), v))
    requires QsortResult(Builtin(fmt), ms, es)
    ensures IsScrapeOf(Builtin(fmt), Text(Builtin(fmt), ms, es), gs, ms)
  {
    BuiltinIsGood(fmt);
    gs := RenderingIsCorrect(Builtin(fmt), ms, es);
  }

  /** And when appends fail while rendering, the scraper still reads whole lines of that text,
      in order. */
  lemma PartialScrapeParses(fmt: real -> string, ms: seq<SnapMetric>, es: seq<Entry>, out: string, all: bool)
    returns (kept: seq<Item>)
    requires forall v :: IsToken(Shown(Builtin(fmt), v))
    requires QsortResult(Builtin(fmt), ms, es) && LinesOf(out, Written(Parts(Builtin(fmt), ms, es)), all)
    ensures ParseDocument(out) == Some(kept) && Sublist(kept, Written(Parts(Builtin(fmt), ms, es)))
    ensures all ==> out == Text(Builtin(fmt), ms, es)
  {
    BuiltinIsGood(fmt);
    kept := PartialTextParses(Builtin(fmt), ms, es, out, all);
  }
}
