/** String routines over NUL-terminated bytes; a pointer is an offset into the bytes. */
module Strings {
  import opened Machine

  /** The first position from `p` on that holds `c` or a NUL. */
  function FindFrom(s: seq<uint8>, p: nat, c: uint8): (q: nat)
    requires p < |s| && s[|s| - 1] == 0
    ensures p <= q < |s| && (s[q] == 0 || s[q] == c)
    ensures forall k :: p <= k < q ==> s[k] != 0 && s[k] != c
    decreases |s| - p
  {
    if s[p] == 0 || s[p] == c then p else FindFrom(s, p + 1, c)
  }

  method Strfind(s: seq<uint8>, p: nat, c: uint8) returns (q: nat)
    requires p < |s| && s[|s| - 1] == 0
    ensures q == FindFrom(s, p, c)
  {
    q := p;
    while s[q] != 0
      invariant p <= q < |s| && FindFrom(s, p, c) == FindFrom(s, q, c)
      decreases |s| - q
    {
      if s[q] == c {
        break;
      }
      q := q + 1;
    }
  }

  /** The length of the string at the start of `s`, at most `size`. */
  method Strnlen(s: seq<uint8>, size: nat) returns (n: nat)
    requires IsCString(s)
    ensures n == if size < |s| - 1 then size else |s| - 1
  {
    n := 0;
    var left := size;
    while left > 0 && s[n] != 0
      invariant n + left == size && n < |s|
    {
      n, left := n + 1, left - 1;
    }
  }

  // ----- Strings inside larger memory -----

  /** Where the string at `p` ends. */
  function NulFrom(m: seq<uint8>, p: nat): (q: nat)
    requires p < |m| && m[|m| - 1] == 0
    ensures p <= q < |m| && m[q] == 0
    ensures forall k :: p <= k < q ==> m[k] != 0
    decreases |m| - p
  {
    if m[p] == 0 then p else NulFrom(m, p + 1)
  }

  /** The string at `p`, without its NUL. */
  function StringAt(m: seq<uint8>, p: nat): seq<uint8>
    requires p < |m| && m[|m| - 1] == 0
  {
    m[p..NulFrom(m, p)]
  }

  /** Compares two strings: zero exactly when they are equal, else the difference of the
      first bytes that differ. */
  method Strcmp(m: seq<uint8>, p0: nat, name: seq<uint8>) returns (d: int)
    requires p0 < |m| && m[|m| - 1] == 0 && IsCString(name)
    ensures d == 0 <==> StringAt(m, p0) == name[..|name| - 1]
    ensures d != 0 ==> exists k :: 0 <= k < |name| && p0 + k < |m| && m[p0..p0 + k] == name[..k]
                                   && d == (m[p0 + k] as int) - (name[k] as int)
  {
    var p, q := p0, 0;
    while m[p] != 0 && m[p] == name[q]
      invariant p == p0 + q && p < |m| && q < |name|
      invariant m[p0..p] == name[..q] && NulFrom(m, p0) == NulFrom(m, p)
      decreases |m| - p
    {
      assert m[p0..p + 1] == m[p0..p] + [m[p]];
      assert name[..q + 1] == name[..q] + [name[q]];
      p, q := p + 1, q + 1;
    }
    d := (m[p] as int) - (name[q] as int);
    if d == 0 {
      assert q == |name| - 1;
    } else {
      Mismatch(m, p0, name, q);
    }
  }

  lemma Mismatch(m: seq<uint8>, p0: nat, name: seq<uint8>, q: nat)
    requires p0 + q < |m| && m[|m| - 1] == 0 && IsCString(name) && q < |name|
    requires m[p0..p0 + q] == name[..q] && m[p0 + q] != name[q]
    ensures StringAt(m, p0) != name[..|name| - 1]
  {
  }

  /** The first occurrence of `c` in the string, if any. */
  method Strchr(s: seq<uint8>, c: uint8) returns (r: Option<nat>)
    requires IsCString(s)
    ensures r.Some? ==> r.value < |s| - 1 && s[r.value] == c && forall k :: 0 <= k < r.value ==> s[k] != c
    ensures r.None? ==> forall k :: 0 <= k < |s| - 1 ==> s[k] != c
  {
    var p := 0;
    while s[p] != 0
      invariant 0 <= p < |s| && forall k :: 0 <= k < p ==> s[k] != c
      decreases |s| - p
    {
      if s[p] == c {
        return Some(p);
      }
      p := p + 1;
    }
    return None;
  }
}
