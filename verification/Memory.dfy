/** Block moves and fills over one byte-addressed memory; an address is an index into it. */
module Memory {
  import opened Machine

  function Moved(m: seq<uint8>, dst: nat, src: nat, n: nat): (r: seq<uint8>)
    requires dst + n <= |m| && src + n <= |m|
    ensures |r| == |m|
  {
    m[..dst] + m[src..src + n] + m[dst + n..]
  }

  function Filled(m: seq<uint8>, v: nat, b: uint8, n: nat): (r: seq<uint8>)
    requires v + n <= |m|
    ensures |r| == |m|
  {
    m[..v] + seq(n, _ => b) + m[v + n..]
  }

  /** The bytes of `now` in [lo, hi) come from `was`, displaced by src - dst; the others have not changed. */
  ghost predicate Shifted(was: seq<uint8>, now: seq<uint8>, dst: nat, src: nat, lo: int, hi: int)
    requires |now| == |was| && dst <= lo && src + (hi - dst) <= |was|
  {
    && (forall k :: lo <= k < hi && k < |now| ==> now[k] == was[src + (k - dst)])
    && (forall k {:trigger now[k]} :: 0 <= k < |now| && !(lo <= k < hi) ==> now[k] == was[k])
  }

  lemma ShiftedIsMoved(m: seq<uint8>, r: seq<uint8>, dst: nat, src: nat, n: nat)
    requires dst + n <= |m| && src + n <= |m| && |r| == |m|
    requires Shifted(m, r, dst, src, dst, dst + n)
    ensures r == Moved(m, dst, src, n)
  {
  }

  /** One unit of `w` bytes more, moving upwards: its source has not been overwritten. */
  lemma ShiftUp(was: seq<uint8>, before: seq<uint8>, now: seq<uint8>, dst: nat, src: nat, n: nat, d: nat, w: nat)
    requires |now| == |before| == |was| && dst + n <= |was| && src + n <= |was| && !(src < dst < src + n)
    requires dst <= d && d + w <= dst + n
    requires Shifted(was, before, dst, src, dst, d)
    requires Shifted(before, now, d, src + (d - dst), d, d + w)
    ensures Shifted(was, now, dst, src, dst, d + w)
  {
  }

  /** One unit more, moving downwards. */
  lemma ShiftDown(was: seq<uint8>, before: seq<uint8>, now: seq<uint8>, dst: nat, src: nat, n: nat, d: nat, w: nat)
    requires |now| == |before| == |was| && dst + n <= |was| && src + n <= |was| && src < dst
    requires dst <= d && d + w <= dst + n
    requires Shifted(was, before, dst, src, d + w, dst + n)
    requires Shifted(before, now, d, src + (d - dst), d, d + w)
    ensures Shifted(was, now, dst, src, d, dst + n)
  {
  }

  // ----- The string instructions -----

  /** Loads a byte, then stores it. */
  method MoveByte(mem: array<uint8>, d: nat, s: nat)
    requires d < mem.Length && s < mem.Length
    modifies mem
    ensures Shifted(old(mem[..]), mem[..], d, s, d, d + 1)
  {
    mem[d] := mem[s];
  }

  /** One byte of an upward move. */
  method ByteUp(mem: array<uint8>, d: nat, s: nat, ghost was: seq<uint8>, ghost dst: nat, ghost src: nat, ghost n: nat)
    requires |was| == mem.Length && dst + n <= |was| && src + n <= |was| && !(src < dst < src + n)
    requires dst <= d < dst + n && s == src + (d - dst) && Shifted(was, mem[..], dst, src, dst, d)
    modifies mem
    ensures Shifted(was, mem[..], dst, src, dst, d + 1)
  {
    ghost var before := mem[..];
    MoveByte(mem, d, s);
    ShiftUp(was, before, mem[..], dst, src, n, d, 1);
  }

  /** The byte move with addresses going up. */
  method MovsbUp(mem: array<uint8>, dst: nat, src: nat, n: nat)
    requires dst + n <= mem.Length && src + n <= mem.Length
    requires !(src < dst < src + n)
    modifies mem
    ensures mem[..] == Moved(old(mem[..]), dst, src, n)
  {
    ghost var was := mem[..];
    var d, s, c := dst, src, n;
    while c > 0
      invariant 0 <= c <= n && d + c == dst + n && s == src + (d - dst)
      invariant Shifted(was, mem[..], dst, src, dst, d)
    {
      ByteUp(mem, d, s, was, dst, src, n);
      d, s, c := d + 1, s + 1, c - 1;
    }
    ShiftedIsMoved(was, mem[..], dst, src, n);
  }

  /** The byte move with addresses going down, entered with both pointers on the last byte. */
  method MovsbDown(mem: array<uint8>, dst: nat, src: nat, n: nat)
    requires dst + n <= mem.Length && src + n <= mem.Length
    requires src < dst
    modifies mem
    ensures mem[..] == Moved(old(mem[..]), dst, src, n)
  {
    ghost var was := mem[..];
    var d, s, c := dst + n - 1, src + n - 1, n;
    while c > 0
      invariant 0 <= c <= n && d == dst + c - 1 && s == src + c - 1
      invariant Shifted(was, mem[..], dst, src, d + 1, dst + n)
    {
      ghost var before := mem[..];
      MoveByte(mem, d, s);
      ShiftDown(was, before, mem[..], dst, src, n, d, 1);
      d, s, c := d - 1, s - 1, c - 1;
    }
    ShiftedIsMoved(was, mem[..], dst, src, n);
  }

  /** Loads a four-byte word, then stores it. */
  method MoveWord(mem: array<uint8>, d: nat, s: nat)
    requires d + 4 <= mem.Length && s + 4 <= mem.Length
    modifies mem
    ensures Shifted(old(mem[..]), mem[..], d, s, d, d + 4)
  {
    mem[d], mem[d + 1], mem[d + 2], mem[d + 3] := mem[s], mem[s + 1], mem[s + 2], mem[s + 3];
  }

  /** One word of an upward move. */
  method WordUp(mem: array<uint8>, d: nat, s: nat, ghost was: seq<uint8>, ghost dst: nat, ghost src: nat, ghost n: nat)
    requires |was| == mem.Length && dst + n <= |was| && src + n <= |was| && !(src < dst < src + n)
    requires dst <= d && d + 4 <= dst + n && s == src + (d - dst) && Shifted(was, mem[..], dst, src, dst, d)
    modifies mem
    ensures Shifted(was, mem[..], dst, src, dst, d + 4)
  {
    ghost var before := mem[..];
    MoveWord(mem, d, s);
    ShiftUp(was, before, mem[..], dst, src, n, d, 4);
  }

  /** The word move with addresses going up. */
  method MovslUp(mem: array<uint8>, dst: nat, src: nat, words: nat)
    requires dst + 4 * words <= mem.Length && src + 4 * words <= mem.Length
    requires !(src < dst < src + 4 * words)
    modifies mem
    ensures mem[..] == Moved(old(mem[..]), dst, src, 4 * words)
  {
    ghost var was := mem[..];
    var d, s, c := dst, src, words;
    while c > 0
      invariant 0 <= c <= words && d == dst + 4 * (words - c) && s == src + 4 * (words - c)
      invariant Shifted(was, mem[..], dst, src, dst, d)
    {
      WordUp(mem, d, s, was, dst, src, 4 * words);
      d, s, c := d + 4, s + 4, c - 1;
    }
    ShiftedIsMoved(was, mem[..], dst, src, 4 * words);
  }

  /** The word move with addresses going down, entered with both pointers on the last word. */
  method MovslDown(mem: array<uint8>, dst: nat, src: nat, words: nat)
    requires dst + 4 * words <= mem.Length && src + 4 * words <= mem.Length
    requires src < dst
    modifies mem
    ensures mem[..] == Moved(old(mem[..]), dst, src, 4 * words)
  {
    ghost var was := mem[..];
    var d, s, c := dst + 4 * words - 4, src + 4 * words - 4, words;
    while c > 0
      invariant 0 <= c <= words && d == dst + 4 * c - 4 && s == src + 4 * c - 4
      invariant Shifted(was, mem[..], dst, src, d + 4, dst + 4 * words)
    {
      ghost var before := mem[..];
      MoveWord(mem, d, s);
      ShiftDown(was, before, mem[..], dst, src, 4 * words, d, 4);
      d, s, c := d - 4, s - 4, c - 1;
    }
    ShiftedIsMoved(was, mem[..], dst, src, 4 * words);
  }

  // ----- memmove and memset -----

  /** The version compiled by default, over the string instructions. */
  method Memmove(mem: array<uint8>, dst: nat, src: nat, n: nat) returns (p: nat)
    requires dst + n <= mem.Length && src + n <= mem.Length
    modifies mem
    ensures mem[..] == Moved(old(mem[..]), dst, src, n) && p == dst
  {
    assert n % 4 == 0 ==> 4 * (n / 4) == n;
    if src < dst && src + n > dst {
      if (src + n) % 4 == 0 && (dst + n) % 4 == 0 && n % 4 == 0 {
        MovslDown(mem, dst, src, n / 4);
      } else {
        MovsbDown(mem, dst, src, n);
      }
    } else {
      if src % 4 == 0 && dst % 4 == 0 && n % 4 == 0 {
        MovslUp(mem, dst, src, n / 4);
      } else {
        MovsbUp(mem, dst, src, n);
      }
    }
    p := dst;
  }

  /** The portable version. */
  method MemmovePortable(mem: array<uint8>, dst: nat, src: nat, n: nat) returns (p: nat)
    requires dst + n <= mem.Length && src + n <= mem.Length
    modifies mem
    ensures mem[..] == Moved(old(mem[..]), dst, src, n) && p == dst
  {
    ghost var was := mem[..];
    var s, d, c := src, dst, n;
    if s < d && s + n > d {
      s, d := s + n, d + n;
      while c > 0
        invariant 0 <= c <= n && d == dst + c && s == src + c
        invariant Shifted(was, mem[..], dst, src, d, dst + n)
      {
        ghost var before := mem[..];
        c := c - 1;
        d := d - 1;
        s := s - 1;
        MoveByte(mem, d, s);
        ShiftDown(was, before, mem[..], dst, src, n, d, 1);
      }
    } else {
      while c > 0
        invariant 0 <= c <= n && d + c == dst + n && s == src + (d - dst)
        invariant Shifted(was, mem[..], dst, src, dst, d)
      {
        c := c - 1;
        ByteUp(mem, d, s, was, dst, src, n);
        d := d + 1;
        s := s + 1;
      }
    }
    ShiftedIsMoved(was, mem[..], dst, src, n);
    p := dst;
  }

  /** The destination holds the old source, whatever the overlap, and nothing else changed. */
  lemma MovedMeans(m: seq<uint8>, dst: nat, src: nat, n: nat)
    requires dst + n <= |m| && src + n <= |m|
    ensures var r := Moved(m, dst, src, n);
            && r[dst..dst + n] == m[src..src + n]
            && forall k :: 0 <= k < |m| && !(dst <= k < dst + n) ==> r[k] == m[k]
  {
  }

  /** A filled block holds the byte and nothing else changed. */
  lemma FilledMeans(m: seq<uint8>, v: nat, b: uint8, n: nat)
    requires v + n <= |m|
    ensures var r := Filled(m, v, b, n);
            && (forall k :: v <= k < v + n ==> r[k] == b)
            && forall k :: 0 <= k < |m| && !(v <= k < v + n) ==> r[k] == m[k]
  {
  }

  /** Byte `k` of a word, least significant first. */
  function ByteOf(w: bv32, k: nat): uint8
    requires k < 4
  {
    (match k
     case 0 => w & 0xFF
     case 1 => (w >> 8) & 0xFF
     case 2 => (w >> 16) & 0xFF
     case _ => (w >> 24) & 0xFF) as uint8
  }

  lemma WordBits(c: bv32)
    requires c <= 0xFF
    ensures var w := (c << 24) | (c << 16) | (c << 8) | c;
            w & 0xFF == c && (w >> 8) & 0xFF == c && (w >> 16) & 0xFF == c && (w >> 24) & 0xFF == c
  {
  }

  /** The four bytes of the word (c << 24) | (c << 16) | (c << 8) | c all equal c. */
  lemma WordOfBytes(c: bv32)
    requires c <= 0xFF
    ensures var b := c as uint8;
            WordBytes((c << 24) | (c << 16) | (c << 8) | c) == [b, b, b, b]
  {
    WordBits(c);
  }

  method StoreByte(mem: array<uint8>, v: nat, b: uint8, d: nat, ghost was: seq<uint8>)
    requires v <= d < mem.Length == |was| && mem[..] == Filled(was, v, b, d - v)
    modifies mem
    ensures mem[..] == Filled(was, v, b, d + 1 - v)
  {
    mem[d] := b;
  }

  lemma FilledMore(was: seq<uint8>, before: seq<uint8>, now: seq<uint8>, v: nat, b: uint8, d: nat)
    requires v <= d && d + 4 <= |was| && before == Filled(was, v, b, d - v)
    requires now == before[..d] + [b, b, b, b] + before[d + 4..]
    ensures now == Filled(was, v, b, d + 4 - v)
  {
  }

  /** The bytes of a word in the order they are stored. */
  function WordBytes(w: bv32): seq<uint8> {
    [ByteOf(w, 0), ByteOf(w, 1), ByteOf(w, 2), ByteOf(w, 3)]
  }

  method StoreWord(mem: array<uint8>, d: nat, bytes: seq<uint8>)
    requires d + 4 <= mem.Length && |bytes| == 4
    modifies mem
    ensures mem[..] == old(mem[..d]) + bytes + old(mem[d + 4..])
  {
    mem[d], mem[d + 1], mem[d + 2], mem[d + 3] := bytes[0], bytes[1], bytes[2], bytes[3];
  }

  /** The word fill, with a word whose bytes are all the same. */
  method Stosl(mem: array<uint8>, v: nat, bytes: seq<uint8>, words: nat, ghost b: uint8)
    requires v + 4 * words <= mem.Length && bytes == [b, b, b, b]
    modifies mem
    ensures mem[..] == Filled(old(mem[..]), v, b, 4 * words)
  {
    ghost var was := mem[..];
    var d, c := v, words;
    while c > 0
      invariant 0 <= c <= words && d == v + 4 * (words - c)
      invariant mem[..] == Filled(was, v, b, d - v)
    {
      ghost var before := mem[..];
      StoreWord(mem, d, bytes);
      FilledMore(was, before, mem[..], v, b, d);
      d, c := d + 4, c - 1;
    }
  }

  /** The byte fill. */
  method Stosb(mem: array<uint8>, v: nat, b: uint8, n: nat)
    requires v + n <= mem.Length
    modifies mem
    ensures mem[..] == Filled(old(mem[..]), v, b, n)
  {
    ghost var was := mem[..];
    var d, c := v, n;
    while c > 0
      invariant 0 <= c <= n && d == v + (n - c)
      invariant mem[..] == Filled(was, v, b, d - v)
    {
      StoreByte(mem, v, b, d, was);
      d, c := d + 1, c - 1;
    }
  }

  /** The version compiled by default: whole words when the block is aligned. */
  method Memset(mem: array<uint8>, v: nat, c: bv32, n: nat) returns (p: nat)
    requires v + n <= mem.Length
    modifies mem
    ensures mem[..] == Filled(old(mem[..]), v, (c & 0xFF) as uint8, n) && p == v
  {
    p := v;
    if n == 0 {
      assert mem[..] == Filled(mem[..], v, ByteOf(c, 0), n);
      return;
    }
    if v % 4 == 0 && n % 4 == 0 {
      var b := c & 0xFF;
      WordOfBytes(b);
      Stosl(mem, v, WordBytes((b << 24) | (b << 16) | (b << 8) | b), n / 4, ByteOf(c, 0));
    } else {
      Stosb(mem, v, ByteOf(c, 0), n);
    }
  }

  /** The portable version counts down in an int: a length above 2^31 comes out negative, and
      2^31 itself wraps around at the first decrement. */
  method MemsetPortable(mem: array<uint8>, v: nat, c: int, n: uint32) returns (p: nat)
    requires v + n <= mem.Length
    modifies mem
    ensures mem[..] == Filled(old(mem[..]), v, c % 0x100, if n <= 0x8000_0000 then n else 0) && p == v
  {
    ghost var was := mem[..];
    var b: uint8 := c % 0x100;
    var q, m: int := v, if n <= INT_MAX then n else n - WORD_SIZE;
    ghost var end := v + if n <= 0x8000_0000 then n else 0;
    m := if m == -0x8000_0000 then INT_MAX else m - 1;
    while m >= 0
      invariant v <= q <= end && (if m >= -1 then q + m + 1 == end else q == end)
      invariant mem[..] == Filled(was, v, b, q - v)
    {
      StoreByte(mem, v, b, q, was);
      q := q + 1;
      m := m - 1;
    }
    p := v;
  }
}
