/** Reading a number back from text. */
module Strtol {
  import opened Machine
  import opened Numbers

  predicate Terminated(s: seq<uint8>) {
    |s| > 0 && s[|s| - 1] == 0
  }

  predicate IsBlank(c: uint8) {
    c == 32 || c == 9
  }

  function SkipBlanks(s: seq<uint8>, p: nat): (q: nat)
    requires Terminated(s) && p < |s|
    ensures p <= q < |s| && !IsBlank(s[q])
    ensures forall k :: p <= k < q ==> IsBlank(s[k])
    decreases |s| - p
  {
    if IsBlank(s[p]) then SkipBlanks(s, p + 1) else p
  }

  /** A digit or letter that is a digit of the base; a negative base has none. */
  predicate IsDigit(c: uint8, base: int) {
    DigitOf(c) < 36 && DigitOf(c) < base
  }

  function DigitsEnd(s: seq<uint8>, p: nat, base: int): (e: nat)
    requires Terminated(s) && p < |s|
    ensures p <= e < |s| && !IsDigit(s[e], base)
    ensures forall k :: p <= k < e ==> IsDigit(s[k], base)
    decreases |s| - p
  {
    if IsDigit(s[p], base) then DigitsEnd(s, p + 1, base) else p
  }

  /** Where the digits start and in which base, once blanks and sign are behind. */
  function Prefix(s: seq<uint8>, p: nat, base: int): (r: (nat, int))
    requires Terminated(s) && p < |s|
    ensures p <= r.0 < |s|
  {
    if (base == 0 || base == 16) && s[p] == 48 && s[p + 1] == 120 then (p + 2, 16)
    else if base == 0 && s[p] == 48 then (p + 1, 8)
    else if base == 0 then (p, 10)
    else (p, base)
  }

  /** The number read and the position just past it. */
  function Parsed(s: seq<uint8>, p: nat, base: int): (int, nat)
    requires Terminated(s) && p < |s|
  {
    var q := SkipBlanks(s, p);
    var signed := s[q] == 43 || s[q] == 45;
    var (start, b) := Prefix(s, if signed then q + 1 else q, base);
    var end := DigitsEnd(s, start, b);
    var v: int := Value(s[start..end], Radix(b));
    (if s[q] == 45 then -v else v, end)
  }

  function Radix(base: int): nat {
    if base < 0 then 0 else base
  }

  // ----- The width of a long -----

  /** What a 32-bit long holds of an integer, in two's complement. */
  function Wrap(x: int): (r: int)
    ensures -0x8000_0000 <= r <= INT_MAX
    ensures -0x8000_0000 <= x <= INT_MAX ==> r == x
  {
    (x + 0x8000_0000) % WORD_SIZE - 0x8000_0000
  }

  lemma WrapUnique(x: int, r: int, k: int)
    requires x == r + k * WORD_SIZE && -0x8000_0000 <= r <= INT_MAX
    ensures Wrap(x) == r
  {
  }

  lemma WrapDecompose(x: int) returns (k: int)
    ensures x == Wrap(x) + k * WORD_SIZE
  {
    k := (x + 0x8000_0000) / WORD_SIZE;
  }

  lemma WrapMultiple(x: int, k: int)
    ensures Wrap(x + k * WORD_SIZE) == Wrap(x)
  {
    var j := WrapDecompose(x);
    WrapUnique(x + k * WORD_SIZE, Wrap(x), j + k);
  }

  /** One more digit: wrapping at every step or once at the end makes no difference. */
  lemma WrapStep(v: int, base: nat, dig: nat)
    ensures Wrap(Wrap(v) * base + dig) == Wrap(v * base + dig)
  {
    var k := WrapDecompose(v);
    assert v * base + dig == Wrap(v) * base + dig + (k * base) * WORD_SIZE;
    WrapMultiple(Wrap(v) * base + dig, k * base);
  }

  lemma WrapNegated(v: int)
    ensures Wrap(-Wrap(v)) == Wrap(-v)
  {
    var k := WrapDecompose(v);
    WrapMultiple(-v, k);
  }

  /** A number and its negation are the same long exactly for the multiples of 2^31. */
  lemma WrapOwnNegation(v: int)
    ensures Wrap(-v) == Wrap(v) <==> v % 0x8000_0000 == 0
  {
    if v % 0x8000_0000 == 0 {
      var h := HalfWords(v);
      assert v == -v + h * WORD_SIZE;
      WrapMultiple(-v, h);
    } else if Wrap(-v) == Wrap(v) {
      var k := WrapDecompose(v);
      var j := WrapDecompose(-v);
      OddHalf(v, k - j);
      assert false;
    }
  }

  lemma HalfWords(v: int) returns (h: int)
    requires v % 0x8000_0000 == 0
    ensures v == h * 0x8000_0000
  {
    h := v / 0x8000_0000;
  }

  lemma OddHalf(v: int, h: int)
    requires v == h * 0x8000_0000
    ensures v % 0x8000_0000 == 0
  {
  }

  /** What strtol answers: the number as a long, and the position just past it. */
  function ReadLong(s: seq<uint8>, p: nat, base: int): (int, nat)
    requires Terminated(s) && p < |s|
  {
    (Wrap(Parsed(s, p, base).0), Parsed(s, p, base).1)
  }

  method GobbleBlanks(str: seq<uint8>, p: nat) returns (s: nat)
    requires Terminated(str) && p < |str|
    ensures s == SkipBlanks(str, p)
  {
    s := p;
    while str[s] == 32 || str[s] == 9
      invariant p <= s < |str| && SkipBlanks(str, p) == SkipBlanks(str, s)
      decreases |str| - s
    {
      s := s + 1;
    }
  }

  method ReadPrefix(str: seq<uint8>, p: nat, base0: int) returns (s: nat, base: int)
    requires Terminated(str) && p < |str|
    ensures (s, base) == Prefix(str, p, base0)
  {
    s, base := p, base0;
    if (base == 0 || base == 16) && str[s] == 48 && str[s + 1] == 120 {
      s, base := s + 2, 16;
    } else if base == 0 && str[s] == 48 {
      s, base := s + 1, 8;
    } else if base == 0 {
      base := 10;
    }
  }

  method Strtol(str: seq<uint8>, p: nat, base0: int) returns (val: int, endptr: nat)
    requires Terminated(str) && p < |str|
    ensures (val, endptr) == ReadLong(str, p, base0)
  {
    var neg, base := false, base0;
    var s := GobbleBlanks(str, p);
    if str[s] == 43 {
      s := s + 1;
    } else if str[s] == 45 {
      s, neg := s + 1, true;
    }
    s, base := ReadPrefix(str, s, base);
    endptr, val := ReadDigits(str, s, base);
    WrapNegated(Value(str[s..endptr], Radix(base)));
    val := if neg then Wrap(-val) else val;
  }

  lemma NextDigit(str: seq<uint8>, start: nat, s: nat, base: nat)
    requires start <= s < |str|
    ensures Wrap(Value(str[start..s + 1], base)) == Wrap(Wrap(Value(str[start..s], base)) * base + DigitOf(str[s]))
  {
    assert str[start..s + 1] == str[start..s] + [str[s]];
    ValueAppend(str[start..s], str[s], base);
    WrapStep(Value(str[start..s], base), base, DigitOf(str[s]));
  }

  /** The digit loop: an overflow is not noticed. */
  method ReadDigits(str: seq<uint8>, start: nat, base: int) returns (s: nat, val: int)
    requires Terminated(str) && start < |str|
    ensures s == DigitsEnd(str, start, base) && val == Wrap(Value(str[start..s], Radix(base)))
  {
    s, val := start, 0;
    while true
      invariant start <= s < |str| && DigitsEnd(str, start, base) == DigitsEnd(str, s, base)
      invariant val == Wrap(Value(str[start..s], Radix(base)))
      decreases |str| - s
    {
      var dig: nat;
      if str[s] >= 48 && str[s] <= 57 {
        dig := str[s] - 48;
      } else if str[s] >= 97 && str[s] <= 122 {
        dig := str[s] - 97 + 10;
      } else if str[s] >= 65 && str[s] <= 90 {
        dig := str[s] - 65 + 10;
      } else {
        break;
      }
      if dig >= base {
        break;
      }
      NextDigit(str, start, s, base);
      s, val := s + 1, Wrap(val * base + dig);
    }
  }

  // ----- The round trip -----

  function Stored(cs: seq<int>): (s: seq<uint8>)
    ensures Terminated(s) && |s| == |cs| + 1
    ensures forall i :: 0 <= i < |cs| ==> s[i] == cs[i] % 0x100
  {
    seq(|cs|, i requires 0 <= i < |cs| => cs[i] % 0x100) + [0]
  }

  lemma DigitsRunTo(s: seq<uint8>, p: nat, e: nat, base: nat)
    requires Terminated(s) && p <= e < |s|
    requires forall k :: p <= k < e ==> IsDigit(s[k], base)
    requires !IsDigit(s[e], base)
    ensures DigitsEnd(s, p, base) == e
  {
  }

  /** How many padding characters are printed. */
  function Pads(n: int, base: nat, width: int): int
    requires 2 <= base <= 16
  {
    width - |Digits(Abs(n), base)|
  }

  predicate Readable(n: int, base: nat, width: int, padc: uint8)
    requires 2 <= base <= 16
  {
    Pads(n, base, width) <= 0 || padc == 48 || (padc == 32 && n >= 0)
    || (padc == 45 && n >= 0 && n % 0x8000_0000 == 0 && Pads(n, base, width) == 1)
  }

  /** What the reader does with sign, blanks and digits laid out as printed. */
  lemma ReadLayout(s: seq<uint8>, q: nat, start: nat, end: nat, base: nat, cs: seq<int>)
    requires Terminated(s) && 2 <= base <= 16
    requires q <= start < |s| && (forall k :: 0 <= k < q ==> IsBlank(s[k]))
    requires !IsBlank(s[q]) && s[q] != 43
    requires start == if s[q] == 45 then q + 1 else q
    requires s[start] == 48 ==> s[start + 1] != 120
    requires end == DigitsEnd(s, start, base) && cs == s[start..end]
    ensures Parsed(s, 0, base) == (if s[q] == 45 then -(Value(cs, base) as int) else Value(cs, base), end)
  {
  }

  /** Characters that fit a byte are stored as they are. */
  lemma StoredAsIs(cs: seq<int>)
    requires forall i :: 0 <= i < |cs| ==> 0 <= cs[i] <= 0xFF
    ensures Stored(cs) == cs + [0]
  {
  }

  /** From `start` on the text is a numeral: it is read whole. */
  lemma ReadAt(s: seq<uint8>, q: nat, start: nat, base: nat, cs: seq<int>)
    requires Terminated(s) && 2 <= base <= 16 && q <= start < |s|
    requires (forall k :: 0 <= k < q ==> IsBlank(s[k])) && !IsBlank(s[q]) && s[q] != 43
    requires start == if s[q] == 45 then q + 1 else q
    requires s[start..|s| - 1] == cs && |cs| > 0 && IsNumeral(cs, base) && IsLowerNumeral(cs)
    ensures Parsed(s, 0, base) == (if s[q] == 45 then -(Value(cs, base) as int) else Value(cs, base), |s| - 1)
  {
    assert forall k :: start <= k < |s| - 1 ==> s[k] == cs[k - start];
    DigitsRunTo(s, start, |s| - 1, base);
    ReadLayout(s, q, start, |s| - 1, base, cs);
  }

  lemma BlankLayout(s: seq<uint8>, pad: seq<int>, cs: seq<int>)
    requires |cs| > 0 && IsLowerNumeral(cs) && s == pad + cs + [0]
    requires forall i :: 0 <= i < |pad| ==> pad[i] == 32
    ensures Terminated(s) && s[|pad|..|s| - 1] == cs && |pad| < |s| - 1
    ensures forall i :: 0 <= i < |pad| ==> IsBlank(s[i])
    ensures !IsBlank(s[|pad|]) && s[|pad|] != 43 && s[|pad|] != 45
  {
  }

  /** Blanks, then a numeral: it is read whole. */
  lemma ReadBlanked(s: seq<uint8>, k: nat, cs: seq<int>, base: nat)
    requires 2 <= base <= 16
    requires |cs| > 0 && IsNumeral(cs, base) && IsLowerNumeral(cs)
    requires s == Rep(32, k) + cs + [0]
    ensures Terminated(s) && Parsed(s, 0, base) == (Value(cs, base) as int, |s| - 1)
  {
    BlankLayout(s, Rep(32, k), cs);
    ReadAt(s, k, k, base, cs);
  }

  lemma PartsAreBytes(sign: seq<int>, pad: seq<int>, ds: seq<int>, padc: uint8)
    requires (forall i :: 0 <= i < |sign| ==> sign[i] == 45) && (forall i :: 0 <= i < |pad| ==> pad[i] == padc)
    requires IsLowerNumeral(ds)
    ensures sign + (pad + ds) == sign + pad + ds && Stored(sign + pad + ds) == sign + pad + ds + [0]
  {
    StoredAsIs(sign + pad + ds);
  }

  /** The printed text in three parts: sign, padding, and a numeral of the magnitude. */
  lemma PrintedParts(n: int, base: nat, width: int, padc: uint8) returns (sign: seq<int>, pad: seq<int>, ds: seq<int>)
    requires 2 <= base <= 16
    ensures sign == (if n < 0 then [45] else []) && pad == Rep(padc, Pads(n, base, width))
    ensures |ds| > 0 && IsNumeral(ds, base) && IsLowerNumeral(ds) && Value(ds, base) == Abs(n)
    ensures var text := Printed(n, base, width, padc);
            text == sign + pad + ds && Stored(text) == sign + pad + ds + [0]
  {
    sign := if n < 0 then [45] else [];
    pad := Rep(padc, Pads(n, base, width));
    ds := Digits(Abs(n), base);
    DigitsAreDigits(Abs(n), base);
    DigitsValue(Abs(n), base);
    PartsAreBytes(sign, pad, ds, padc);
  }

  /** What the reader makes of a text that consists of a sign, a padding and a numeral. */
  ghost function Expected(minus: bool, k: int, padc: uint8, ds: seq<int>, base: nat): (int, nat) {
    var v: int := Value(ds, base);
    if k <= 0 || padc == 48 then (if minus then -v else v, (if minus then 1 else 0) + (if k > 0 then k else 0) + |ds|)
    else if padc == 32 && !minus then (v, k + |ds|)
    else if padc == 45 && !minus && k == 1 then (-v, 1 + |ds|)
    else (0, 1)
  }

  ghost predicate IsText(s: seq<uint8>, minus: bool, pad: seq<int>, ds: seq<int>, base: nat) {
    && 2 <= base <= 16 && |ds| > 0 && IsNumeral(ds, base) && IsLowerNumeral(ds)
    && s == (if minus then [45] else []) + pad + ds + [0]
  }

  lemma ReadUnpadded(s: seq<uint8>, minus: bool, pad: seq<int>, ds: seq<int>, base: nat)
    requires IsText(s, minus, pad, ds, base) && pad == []
    ensures Terminated(s) && Parsed(s, 0, base) == Expected(minus, 0, 48, ds, base)
  {
  }

  lemma ReadZeroPadded(s: seq<uint8>, minus: bool, pad: seq<int>, ds: seq<int>, base: nat, k: nat)
    requires IsText(s, minus, pad, ds, base) && pad == Rep(48, k) && k > 0
    ensures Terminated(s) && Parsed(s, 0, base) == Expected(minus, k, 48, ds, base)
  {
    var cs := ZerosThenDigits(s, minus, pad, ds, base, k);
    ReadUnpadded(s, minus, [], cs, base);
    SameExpected(minus, k, ds, cs, base);
  }

  lemma SameExpected(minus: bool, k: nat, ds: seq<int>, cs: seq<int>, base: nat)
    requires k > 0 && Value(cs, base) == Value(ds, base) && |cs| == k + |ds|
    ensures Expected(minus, 0, 48, cs, base) == Expected(minus, k, 48, ds, base)
  {
  }

  lemma ZerosThenDigits(s: seq<uint8>, minus: bool, pad: seq<int>, ds: seq<int>, base: nat, k: nat)
    returns (cs: seq<int>)
    requires IsText(s, minus, pad, ds, base) && pad == Rep(48, k)
    ensures IsText(s, minus, [], cs, base) && Value(cs, base) == Value(ds, base) && |cs| == k + |ds|
  {
    cs := pad + ds;
    LeadingZeros(k, ds, base);
    Regroup(s, if minus then [45] else [], pad, ds, cs);
  }

  lemma Regroup(s: seq<uint8>, sign: seq<int>, pad: seq<int>, ds: seq<int>, cs: seq<int>)
    requires s == sign + pad + ds + [0] && cs == pad + ds
    ensures s == sign + [] + cs + [0]
  {
  }

  lemma ReadBlankPadded(s: seq<uint8>, pad: seq<int>, ds: seq<int>, base: nat, k: nat)
    requires IsText(s, false, pad, ds, base) && pad == Rep(32, k) && k > 0
    ensures Terminated(s) && Parsed(s, 0, base) == Expected(false, k, 32, ds, base)
  {
    assert s == pad + ds + [0];
    ReadBlanked(s, k, ds, base);
  }

  lemma ReadDashPadded(s: seq<uint8>, pad: seq<int>, ds: seq<int>, base: nat)
    requires IsText(s, false, pad, ds, base) && pad == [45]
    ensures Terminated(s) && Parsed(s, 0, base) == Expected(false, 1, 45, ds, base)
  {
  }

  lemma ReadSplit(s: seq<uint8>, minus: bool, pad: seq<int>, ds: seq<int>, base: nat, k: nat, padc: uint8)
    requires IsText(s, minus, pad, ds, base) && pad == Rep(padc, k) && k > 0
    requires (minus && (padc == 32 || padc == 45)) || (padc == 45 && k > 1)
    ensures Terminated(s) && Parsed(s, 0, base) == (0, 1)
  {
  }

  lemma ReadParts(s: seq<uint8>, minus: bool, k: int, padc: uint8, pad: seq<int>, ds: seq<int>, base: nat)
    requires padc in {32, 45, 48} && pad == Rep(padc, k)
    requires IsText(s, minus, pad, ds, base)
    ensures Terminated(s) && Parsed(s, 0, base) == Expected(minus, k, padc, ds, base)
  {
    if k <= 0 {
      ReadUnpadded(s, minus, pad, ds, base);
    } else if padc == 48 {
      ReadZeroPadded(s, minus, pad, ds, base, k);
    } else if padc == 32 && !minus {
      ReadBlankPadded(s, pad, ds, base, k);
    } else if padc == 45 && !minus && k == 1 {
      assert pad == [45];
      ReadDashPadded(s, pad, ds, base);
    } else {
      ReadSplit(s, minus, pad, ds, base, k, padc);
    }
  }

  lemma ExpectedIsRight(n: int, k: int, padc: uint8, ds: seq<int>, base: nat)
    requires padc in {32, 45, 48} && |ds| > 0 && Value(ds, base) == Abs(n)
    ensures var (v, end) := Expected(n < 0, k, padc, ds, base);
            Wrap(v) == Wrap(n) && end == (if n < 0 then 1 else 0) + (if k > 0 then k else 0) + |ds|
            <==> k <= 0 || padc == 48 || (padc == 32 && n >= 0)
                 || (padc == 45 && n >= 0 && n % 0x8000_0000 == 0 && k == 1)
  {
    WrapOwnNegation(n);
  }

  /** Reading a printed number gives it back as a long, to the end of the text, exactly when
      the padding does not come between sign and digits nor reads as a sign. */
  lemma RoundTrip(n: int, base: nat, width: int, padc: uint8)
    requires (base == 10 || base == 16) && padc in {32, 45, 48}
    ensures var text := Printed(n, base, width, padc);
            ReadLong(Stored(text), 0, base) == (Wrap(n), |text|) <==> Readable(n, base, width, padc)
  {
    var sign, pad, ds := PrintedParts(n, base, width, padc);
    var text := Printed(n, base, width, padc);
    ReadParts(Stored(text), n < 0, Pads(n, base, width), padc, pad, ds, base);
    ExpectedIsRight(n, Pads(n, base, width), padc, ds, base);
    assert |text| == |sign| + |pad| + |ds|;
  }
}
