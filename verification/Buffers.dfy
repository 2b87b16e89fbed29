/** snprintf into a caller-supplied buffer, as the path, value and RRA builders use it. */
module Buffers {
  import opened CStrings

  /** The NUL-terminated string that starts at `off` is `s`. */
  ghost predicate HoldsAt(b: array<char>, off: nat, s: string)
    reads b
  {
    off + |s| < b.Length && b[off..off + |s|] == s && b[off + |s|] == '\0'
  }

  /** The string a C function sees at b + off: everything before the next NUL. */
  function CStringAt(b: array<char>, off: nat): string
    requires off <= b.Length
    reads b
  {
    match IndexOf(b[..], '\0', off)
    case None => b[off..]
    case Some(i) => b[off..i]
  }

  lemma CStringHeld(b: array<char>, off: nat, s: string)
    requires HoldsAt(b, off, s) && '\0' !in s
    ensures CStringAt(b, off) == s
  {
    assert forall i :: 0 <= i < |s| ==> b[..][off + i] == s[i];
    assert b[..][off + |s|] == '\0';
    forall i | off <= i < off + |s| ensures b[..][i] != '\0' {
      assert b[..][i] == s[i - off];
    }
    FirstIs(b[..], '\0', off, off + |s|);
  }

  /** Text written right after a prefix extends the string at the start. */
  lemma HoldsAppend(b: array<char>, t: string, s: string)
    requires |t| <= b.Length && b[..|t|] == t && HoldsAt(b, |t|, s)
    ensures HoldsAt(b, 0, t + s)
  {
    assert b[..|t| + |s|] == b[..|t|] + b[|t|..|t| + |s|];
  }

  /** snprintf(b + off, n - off, "%s", s): writes what fits, terminates it, and
      returns the length the full text needs. */
  method Snprintf(b: array<char>, off: nat, s: string) returns (need: nat)
    requires off <= b.Length
    modifies b
    ensures need == |s|
    ensures b[..off] == old(b[..off])
    ensures |s| < b.Length - off ==> HoldsAt(b, off, s)
    ensures |s| < b.Length - off ==> b[off + |s| + 1..] == old(b[off + |s| + 1..])
  {
    need := |s|;
    if off == b.Length {
      return;
    }
    var i := 0;
    while i < |s| && off + i + 1 < b.Length
      invariant 0 <= i <= |s| && off + i < b.Length
      invariant forall k :: 0 <= k < off ==> b[k] == old(b[k])
      invariant forall k :: 0 <= k < i ==> b[off + k] == s[k]
      invariant forall k :: off + i <= k < b.Length ==> b[k] == old(b[k])
    {
      b[off + i] := s[i];
      i := i + 1;
    }
    b[off + i] := '\0';
  }
}
