/** The collect.json mini-parser (src/config.c): substring searches over the raw text. */
module Config {
  import opened CStrings
  import opened Quoted
  import Decimal

  const MAX_READERS: nat := 16
  const NAME_SIZE: nat := 32

  /** collect_config_t as a value. */
  datatype Settings = Settings(interval: int, datadir: string, host: string,
                               rrdcached: string, metricsAddr: string, readers: seq<string>)

  const DEFAULTS := Settings(5, "/var/lib/svgd-collect/rrd", "localhost", "", "", [])

  /** The colon behind a key. */
  function ColonAfter(json: string, key: string): (r: Option<nat>)
    ensures r.Some? ==> r.value < |json|
  {
    match FindSub(json, InQuotes(key), 0)
    case None => None
    case Some(p) => IndexOf(json, ':', p + |InQuotes(key)|)
  }

  /** The text between two quotes, cut to a field of `size` bytes. */
  function Between(json: string, q: Option<nat>, e: Option<nat>, size: nat): Option<string>
    requires size > 0 && (e.Some? ==> q.Some? && q.value < e.value <= |json|)
  {
    if e.Some? then Some(Truncated(json[q.value + 1..e.value], size)) else None
  }

  /** extract_string: None when the field is left as it was. */
  function ExtractString(json: string, key: string, size: nat): Option<string>
    requires size > 0
  {
    var q := NextOf(json, '"', ColonAfter(json, key));
    Between(json, q, NextOf(json, '"', q), size)
  }

  function OrElse(r: Option<string>, old_: string): string {
    if r.Some? then r.value else old_
  }

  /** atoi(s + i). */
  function Atoi(s: string, i: nat): int
    requires i <= |s|
  {
    Decimal.ScanInt(s, Decimal.SkipSpaces(s, i))
  }

  function ExtractInt(json: string, key: string, default: int): int {
    match ColonAfter(json, key)
    case None => default
    case Some(c) => Atoi(json, c + 1)
  }

  /** A name and the position behind its closing quote. */
  datatype Found = Found(name: string, next: nat)

  /** The next name at or after `cur` and the position behind it; none once the quote
      lies beyond the bracket or is missing. */
  function NextName(json: string, cur: nat, rb: Option<nat>): Option<Found> {
    var q1 := IndexOf(json, '"', cur);
    var q2 := NextOf(json, '"', q1);
    if q1.Some? && rb.Some? && q1.value >= rb.value then None
    else if q2.Some? then Some(Found(Truncated(json[q1.value + 1..q2.value], NAME_SIZE), q2.value + 1))
    else None
  }

  /** The scan loop's state: names so far, cursor, and whether it has stopped. */
  datatype Scan = Scan(names: seq<string>, cur: nat, stopped: bool)

  /** One turn of the loop; `next` finds the next name. */
  function Turn(next: nat -> Option<Found>, s: Scan): Scan {
    if s.stopped then s
    else
      match next(s.cur)
      case None => s.(stopped := true)
      case Some(Found(name, cur)) => Scan(s.names + [name], cur, false)
  }

  /** The state after k turns. */
  function Turns(next: nat -> Option<Found>, start: nat, k: nat): Scan {
    if k == 0 then Scan([], start, false) else Turn(next, Turns(next, start, k - 1))
  }

  function Scanner(json: string, rb: Option<nat>): nat -> Option<Found> {
    (cur: nat) => NextName(json, cur, rb)
  }

  datatype Span = Span(lb: nat, rb: Option<nat>)

  /** The positions of '[' and ']' that delimit the reader list; the bracket may be missing. */
  function ListBounds(json: string, key: string): Option<Span> {
    match FindSub(json, InQuotes(key), 0)
    case None => None
    case Some(rp) =>
      match IndexOf(json, '[', rp)
      case None => None
      case Some(lb) => Some(Span(lb, IndexOf(json, ']', lb)))
  }

  /** The names between the bounds that an array of `slots` entries receives. */
  function NamesIn(json: string, bounds: Option<Span>, slots: nat): seq<string> {
    if bounds.None? then [] else Turns(Scanner(json, bounds.value.rb), bounds.value.lb + 1, slots).names
  }

  function Readers(json: string, key: string, slots: nat): seq<string> {
    NamesIn(json, ListBounds(json, key), slots)
  }

  function Clamped(interval: int): int { if interval < 1 then 5 else interval }

  function Parsed(json: string): Settings {
    Settings(
      Clamped(ExtractInt(json, "interval", DEFAULTS.interval)),
      OrElse(ExtractString(json, "datadir", 4096), DEFAULTS.datadir),
      OrElse(ExtractString(json, "hostname", 128), DEFAULTS.host),
      OrElse(ExtractString(json, "rrdcached_addr", 256), DEFAULTS.rrdcached),
      OrElse(ExtractString(json, "metrics_addr", 128), DEFAULTS.metricsAddr),
      Readers(json, "readers", MAX_READERS))
  }

  lemma TurnsStep(next: nat -> Option<Found>, start: nat, k: nat)
    ensures Turns(next, start, k + 1) == Turn(next, Turns(next, start, k))
  {
  }

  lemma {:induction false} StoppedStays(next: nat -> Option<Found>, start: nat, j: nat, k: nat)
    requires j <= k && Turns(next, start, j).stopped
    ensures Turns(next, start, k) == Turns(next, start, j)
    decreases k
  {
    if j < k {
      StoppedStays(next, start, j, k - 1);
      TurnsStep(next, start, k - 1);
    }
  }

  lemma {:induction false} TurnsBounded(next: nat -> Option<Found>, start: nat, k: nat)
    ensures |Turns(next, start, k).names| <= k
    decreases k
  {
    if k > 0 {
      TurnsBounded(next, start, k - 1);
      TurnsStep(next, start, k - 1);
    }
  }

  /** The scan loop: moves a cursor from quote to quote until the bracket, the end of the
      text or the last free slot. */
  method ScanLoop(json: string, start: nat, rb: Option<nat>, slots: nat) returns (names: seq<string>)
    ensures names == Turns(Scanner(json, rb), start, slots).names && |names| <= slots
  {
    names := [];
    var cur := start;
    ghost var next := Scanner(json, rb);
    TurnsBounded(next, start, slots);
    while |names| < slots
      invariant |names| <= slots && Turns(next, start, |names|) == Scan(names, cur, false)
      decreases slots - |names|
    {
      TurnsStep(next, start, |names|);
      assert next(cur) == NextName(json, cur, rb);
      var found := NextName(json, cur, rb);
      if found.Some? {
        names := names + [found.value.name];
        cur := found.value.next;
      } else {
        StoppedStays(next, start, |names| + 1, slots);
        return;
      }
    }
  }

  method LoadNames(json: string, bounds: Option<Span>, slots: nat) returns (names: seq<string>)
    ensures names == NamesIn(json, bounds, slots) && |names| <= slots
  {
    if bounds.None? {
      return [];
    }
    names := ScanLoop(json, bounds.value.lb + 1, bounds.value.rb, slots);
  }

  /** The readers part of config_load. */
  method LoadReaders(json: string, key: string, slots: nat) returns (names: seq<string>)
    ensures names == Readers(json, key, slots) && |names| <= slots
  {
    names := LoadNames(json, ListBounds(json, key), slots);
  }

  class CollectConfig {
    var interval: int
    var datadir: string
    var host: string
    var rrdcached: string
    var metricsAddr: string
    var readers: seq<string>

    function View(): Settings
      reads this
    {
      Settings(interval, datadir, host, rrdcached, metricsAddr, readers)
    }

    constructor ()
    {
      interval, datadir, host, rrdcached, metricsAddr, readers := 0, "", "", "", "", [];
    }

    /** config_load: defaults first; `file` is None when the file cannot be read. */
    method Load(file: Option<string>) returns (rc: int)
      modifies this
      ensures rc == if file.None? then -1 else 0
      ensures View() == if file.None? then DEFAULTS else Parsed(file.value)
      ensures |readers| <= MAX_READERS
    {
      interval, datadir, host := DEFAULTS.interval, DEFAULTS.datadir, DEFAULTS.host;
      rrdcached, metricsAddr, readers := DEFAULTS.rrdcached, DEFAULTS.metricsAddr, DEFAULTS.readers;
      if file.None? {
        return -1;
      }
      var buf := file.value;
      interval := ExtractInt(buf, "interval", interval);
      if interval < 1 {
        interval := 5;
      }
      datadir := OrElse(ExtractString(buf, "datadir", 4096), datadir);
      host := OrElse(ExtractString(buf, "hostname", 128), host);
      rrdcached := OrElse(ExtractString(buf, "rrdcached_addr", 256), rrdcached);
      metricsAddr := OrElse(ExtractString(buf, "metrics_addr", 128), metricsAddr);
      readers := LoadReaders(buf, "readers", MAX_READERS);
      return 0;
    }
  }
}
