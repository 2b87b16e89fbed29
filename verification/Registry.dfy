/** The reader registry and the builder of the enabled list (src/registry.c). */
module Registry {
  import opened CStrings
  import opened Lists

  /** The readers, in registry order. */
  datatype Reader = Cpu | Load | Uptime | Memory | Swap | Interface | Disk | Df | Processes | Thermal | Tcpconns

  datatype Registration = Registration(name: string, reader: Reader)

  const REGISTRY: seq<Registration> := [
    Registration("cpu", Cpu), Registration("load", Load), Registration("uptime", Uptime),
    Registration("memory", Memory), Registration("swap", Swap), Registration("interface", Interface),
    Registration("disk", Disk), Registration("df", Df), Registration("processes", Processes),
    Registration("thermal", Thermal), Registration("tcpconns", Tcpconns)
  ]

  function FindIn(regs: seq<Registration>, name: string): Option<Reader> {
    if regs == [] then None
    else if regs[0].name == name then Some(regs[0].reader)
    else FindIn(regs[1..], name)
  }

  /** registry_find; a NULL name finds nothing. */
  function Find(name: Option<string>): Option<Reader> {
    if name.None? then None else FindIn(REGISTRY, name.value)
  }

  // ---- specification ---------------------------------------------------------------

  /** The known readers among the requests, in request order, with repetitions. */
  function KnownReaders(requests: seq<Option<string>>): seq<Reader> {
    if requests == [] then []
    else
      var n := |requests| - 1;
      var r := Find(requests[n]);
      KnownReaders(requests[..n]) + if r.Some? then [r.value] else []
  }

  /** First occurrences only, in order. */
  function Dedup(rs: seq<Reader>): seq<Reader> {
    if rs == [] then []
    else
      var n := |rs| - 1;
      var before := Dedup(rs[..n]);
      if rs[n] in before then before else before + [rs[n]]
  }

  /** What an array for `max` readers takes of a list. */
  function UpTo(rs: seq<Reader>, max: int): seq<Reader> { Take(rs, if max < 0 then 0 else max) }

  /** Every request that is known is enabled once the list is long enough, nothing else
      is, and nothing is enabled twice. */
  lemma {:induction false} DedupIsASet(rs: seq<Reader>)
    ensures forall r :: r in Dedup(rs) <==> r in rs
    ensures forall i, j :: 0 <= i < j < |Dedup(rs)| ==> Dedup(rs)[i] != Dedup(rs)[j]
    decreases |rs|
  {
    if rs != [] {
      var n := |rs| - 1;
      DedupIsASet(rs[..n]);
      assert rs == rs[..n] + [rs[n]];
    }
  }

  // ---- the builder -----------------------------------------------------------------

  method Contains(out: array<Reader>, n: nat, r: Reader) returns (dup: bool)
    requires n <= out.Length
    ensures dup <==> r in out[..n]
  {
    dup := false;
    var j := 0;
    while j < n
      invariant 0 <= j <= n && !dup && r !in out[..j]
    {
      if out[j] == r {
        return true;
      }
      assert out[..j + 1] == out[..j] + [out[j]];
      j := j + 1;
    }
  }

  lemma UpToSnoc(s: seq<Reader>, r: Reader, max: int)
    ensures UpTo(s + [r], max) == if |s| < max then s + [r] else UpTo(s, max)
    ensures |s| < max ==> UpTo(s, max) == s
  {
  }

  /** The enabled list is the first `max` of the deduplicated known requests; with no
      requests it is the registry itself. */
  method BuildEnabled(readers: seq<Option<string>>, out: array<Reader>, max: int) returns (n: nat)
    requires max <= out.Length
    modifies out
    ensures n <= out.Length && (max >= 0 ==> n <= max)
    ensures out[..n] == UpTo(if readers == [] then Everything() else Dedup(KnownReaders(readers)), max)
  {
    n := 0;
    if readers == [] {
      EverythingIs();
      while n < |REGISTRY| && n < max
        invariant 0 <= n <= |REGISTRY| && (n <= max || n == 0) && n <= out.Length
        invariant out[..n] == Everything()[..n]
      {
        out[n] := REGISTRY[n].reader;
        n := n + 1;
        assert out[..n] == out[..n - 1] + [Everything()[n - 1]];
      }
      return;
    }
    var i := 0;
    while i < |readers|
      invariant 0 <= i <= |readers| && n <= out.Length && (max >= 0 ==> n <= max)
      invariant out[..n] == UpTo(Dedup(KnownReaders(readers[..i])), max)
    {
      n := AddReader(readers[..i], readers[i], out, n, max);
      assert readers[..i] + [readers[i]] == readers[..i + 1];
      i := i + 1;
    }
    assert readers[..i] == readers;
  }

  function Everything(): seq<Reader> {
    [Cpu, Load, Uptime, Memory, Swap, Interface, Disk, Df, Processes, Thermal, Tcpconns]
  }

  lemma EverythingIs()
    ensures |REGISTRY| == |Everything()| && forall i :: 0 <= i < |REGISTRY| ==> REGISTRY[i].reader == Everything()[i]
  {
  }

  lemma KnownStep(before: seq<Option<string>>, want: Option<string>)
    ensures var r := Find(want);
            var d := Dedup(KnownReaders(before));
            Dedup(KnownReaders(before + [want])) == if r.Some? && r.value !in d then d + [r.value] else d
  {
    var all, r := before + [want], Find(want);
    assert all[..|before|] == before;
    var known := KnownReaders(before);
    if r.Some? {
      assert KnownReaders(all) == known + [r.value];
      assert (known + [r.value])[..|known|] == known;
    } else {
      assert KnownReaders(all) == known + [] == known;
    }
  }

  /** One turn of the request loop. */
  method AddReader(ghost before: seq<Option<string>>, want: Option<string>, out: array<Reader>, n: nat, max: int) returns (n': nat)
    requires max <= out.Length && n <= out.Length && (max >= 0 ==> n <= max)
    requires out[..n] == UpTo(Dedup(KnownReaders(before)), max)
    modifies out
    ensures n' <= out.Length && (max >= 0 ==> n' <= max)
    ensures out[..n'] == UpTo(Dedup(KnownReaders(before + [want])), max)
  {
    KnownStep(before, want);
    ghost var d := Dedup(KnownReaders(before));
    n' := n;
    var r := Find(want);
    if r.None? {
      return;
    }
    UpToSnoc(d, r.value, max);
    var dup := Contains(out, n, r.value);
    if dup {
      return;
    }
    if n < max {
      out[n] := r.value;
      n' := n + 1;
      assert out[..n'] == out[..n] + [r.value];
    }
  }
}
