/** What strtol makes of text that printf does not print: blanks and signs in front, octal and
    default bases, capital letters. */
module Texts {
  import opened Machine
  import opened Numbers
  import opened Strtol

  // ----- Characters in front -----

  lemma {:induction false} DigitsEndShift(c: uint8, s: seq<uint8>, p: nat, base: int)
    requires Terminated(s) && p < |s|
    ensures DigitsEnd([c] + s, p + 1, base) == DigitsEnd(s, p, base) + 1
    decreases |s| - p
  {
    assert ([c] + s)[p + 1] == s[p];
    if IsDigit(s[p], base) {
      DigitsEndShift(c, s, p + 1, base);
    }
  }

  lemma {:induction false} SkipBlanksShift(c: uint8, s: seq<uint8>, p: nat)
    requires Terminated(s) && p < |s|
    ensures SkipBlanks([c] + s, p + 1) == SkipBlanks(s, p) + 1
    decreases |s| - p
  {
    assert ([c] + s)[p + 1] == s[p];
    if IsBlank(s[p]) {
      SkipBlanksShift(c, s, p + 1);
    }
  }

  /** The number that starts at `p`, once blanks and sign are behind. */
  function Magnitude(s: seq<uint8>, p: nat, base: int): (int, nat)
    requires Terminated(s) && p < |s|
  {
    var (start, b) := Prefix(s, p, base);
    var end := DigitsEnd(s, start, b);
    (Value(s[start..end], Radix(b)) as int, end)
  }

  lemma MagnitudeShift(c: uint8, s: seq<uint8>, p: nat, base: int)
    requires Terminated(s) && p < |s|
    ensures Magnitude([c] + s, p + 1, base) == (Magnitude(s, p, base).0, Magnitude(s, p, base).1 + 1)
  {
    var (start, b) := Prefix(s, p, base);
    PrefixShift(c, s, p, base);
    DigitsEndShift(c, s, start, b);
    SliceShift(c, s, start, DigitsEnd(s, start, b));
  }

  lemma PrefixShift(c: uint8, s: seq<uint8>, p: nat, base: int)
    requires Terminated(s) && p < |s|
    ensures var (start, b) := Prefix(s, p, base); Prefix([c] + s, p + 1, base) == (start + 1, b)
  {
    var t := [c] + s;
    assert t[p + 1] == s[p];
    if s[p] == 48 {
      assert t[p + 2] == s[p + 1];
    }
  }

  lemma SliceShift(c: uint8, s: seq<uint8>, i: nat, j: nat)
    requires i <= j <= |s|
    ensures ([c] + s)[i + 1..j + 1] == s[i..j]
  {
  }

  /** Where the magnitude starts. */
  function After(s: seq<uint8>, q: nat): nat
    requires q < |s|
  {
    if s[q] == 43 || s[q] == 45 then q + 1 else q
  }

  lemma ParsedFrom(s: seq<uint8>, q: nat, base: int, v: int, end: nat)
    requires Terminated(s) && SkipBlanks(s, 0) == q && After(s, q) < |s| && Magnitude(s, After(s, q), base) == (v, end)
    ensures Parsed(s, 0, base) == (if s[q] == 45 then -v else v, end)
  {
  }

  /** The same magnitude one further on, under the same sign or another one. */
  lemma ParsedShifted(s: seq<uint8>, q: nat, t: seq<uint8>, r: nat, base: int, m: (int, nat))
    requires Terminated(s) && SkipBlanks(s, 0) == q && After(s, q) < |s| && Magnitude(s, After(s, q), base) == m
    requires Terminated(t) && SkipBlanks(t, 0) == r && After(t, r) < |t|
    requires Magnitude(t, After(t, r), base) == (m.0, m.1 + 1)
    ensures Parsed(t, 0, base) == (if (s[q] == 45) == (t[r] == 45) then Parsed(s, 0, base).0 else -Parsed(s, 0, base).0,
                                   Parsed(s, 0, base).1 + 1)
  {
    ParsedFrom(s, q, base, m.0, m.1);
    ParsedFrom(t, r, base, m.0, m.1 + 1);
  }

  lemma AfterShift(c: uint8, s: seq<uint8>, q: nat)
    requires q < |s|
    ensures ([c] + s)[q + 1] == s[q] && After([c] + s, q + 1) == After(s, q) + 1
  {
  }

  lemma AfterInside(s: seq<uint8>, q: nat)
    requires Terminated(s) && q < |s|
    ensures After(s, q) < |s|
  {
  }

  lemma BlankSkipped(c: uint8, s: seq<uint8>) returns (q: nat)
    requires Terminated(s) && IsBlank(c)
    ensures q == SkipBlanks(s, 0) && SkipBlanks([c] + s, 0) == q + 1 && After(s, q) < |s|
    ensures ([c] + s)[q + 1] == s[q] && After([c] + s, q + 1) < |[c] + s|
  {
    q := SkipBlanks(s, 0);
    AfterInside(s, q);
    SkipBlanksShift(c, s, 0);
    AfterShift(c, s, q);
  }

  lemma MagnitudeAfter(c: uint8, s: seq<uint8>, q: nat, base: int)
    requires Terminated(s) && q < |s| && After(s, q) < |s| && After([c] + s, q + 1) < |[c] + s|
    ensures Magnitude([c] + s, After([c] + s, q + 1), base)
            == (Magnitude(s, After(s, q), base).0, Magnitude(s, After(s, q), base).1 + 1)
  {
    AfterShift(c, s, q);
    MagnitudeShift(c, s, After(s, q), base);
  }

  lemma SameSign(s: seq<uint8>, q: nat, t: seq<uint8>, r: nat, base: int)
    requires Terminated(s) && SkipBlanks(s, 0) == q && After(s, q) < |s|
    requires Terminated(t) && SkipBlanks(t, 0) == r && After(t, r) < |t| && s[q] == t[r]
    requires Magnitude(t, After(t, r), base)
             == (Magnitude(s, After(s, q), base).0, Magnitude(s, After(s, q), base).1 + 1)
    ensures Parsed(t, 0, base) == (Parsed(s, 0, base).0, Parsed(s, 0, base).1 + 1)
  {
    ParsedShifted(s, q, t, r, base, Magnitude(s, After(s, q), base));
  }

  /** A blank or a tab in front changes nothing but the position. */
  lemma BlankInFront(c: uint8, s: seq<uint8>, base: int)
    requires Terminated(s) && c in {9, 32}
    ensures Parsed([c] + s, 0, base) == (Parsed(s, 0, base).0, Parsed(s, 0, base).1 + 1)
  {
    var q := BlankSkipped(c, s);
    MagnitudeAfter(c, s, q, base);
    SameSign(s, q, [c] + s, q + 1, base);
  }

  /** A plus sign in front of text without blank or sign changes nothing but the position, and
      a minus sign negates. */
  lemma SignInFront(c: uint8, s: seq<uint8>, base: int)
    requires Terminated(s) && c in {43, 45} && s[0] !in {9, 32, 43, 45}
    ensures Parsed([c] + s, 0, base)
            == (if c == 45 then -Parsed(s, 0, base).0 else Parsed(s, 0, base).0, Parsed(s, 0, base).1 + 1)
  {
    MagnitudeShift(c, s, 0, base);
    ParsedShifted(s, 0, [c] + s, 0, base, Magnitude(s, 0, base));
  }

  // ----- Bases -----

  /** Digits up to something that is no digit of the base are read as a number of that base. */
  lemma PlainNumber(s: seq<uint8>, n: nat, base: int)
    requires Terminated(s) && 2 <= base <= 36 && 0 < n < |s| && !(base == 16 && s[0] == 48 && s[1] == 120)
    requires (forall k :: 0 <= k < n ==> IsDigit(s[k], base)) && !IsDigit(s[n], base)
    ensures Parsed(s, 0, base) == (Value(s[..n], base) as int, n)
  {
    DigitsRunTo(s, 0, n, base);
    assert s[0..n] == s[..n];
  }

  /** With base 0 a number without a leading zero is decimal. */
  lemma DefaultIsDecimal(s: seq<uint8>, n: nat)
    requires Terminated(s) && 0 < n < |s| && s[0] != 48
    requires (forall k :: 0 <= k < n ==> 48 <= s[k] <= 57) && !(48 <= s[n] <= 57)
    ensures Parsed(s, 0, 0) == (Value(s[..n], 10) as int, n)
  {
    assert Prefix(s, 0, 0) == (0, 10);
    DigitsRunTo(s, 0, n, 10);
    assert s[0..n] == s[..n];
  }

  /** With base 0 a leading zero without an x makes it octal. */
  lemma LeadingZeroIsOctal(s: seq<uint8>, n: nat)
    requires Terminated(s) && 0 < n < |s| && s[0] == 48 && s[1] != 120
    requires (forall k :: 1 <= k < n ==> 48 <= s[k] <= 55) && !(48 <= s[n] <= 55)
    ensures Parsed(s, 0, 0) == (Value(s[1..n], 8) as int, n)
  {
    assert Prefix(s, 0, 0) == (1, 8);
    DigitsRunTo(s, 1, n, 8);
  }

  /** With base 16 or 0, "0x" and hexadecimal digits, small or capital. */
  lemma PrefixIsHex(s: seq<uint8>, n: nat, base: int)
    requires Terminated(s) && 2 <= n < |s| && s[0] == 48 && s[1] == 120 && (base == 0 || base == 16)
    requires (forall k :: 2 <= k < n ==> 48 <= s[k] <= 57 || 97 <= s[k] <= 102 || 65 <= s[k] <= 70)
    requires !(48 <= s[n] <= 57 || 97 <= s[n] <= 102 || 65 <= s[n] <= 70)
    ensures Parsed(s, 0, base) == (Value(s[2..n], 16) as int, n)
  {
    assert Prefix(s, 0, base) == (2, 16);
    DigitsRunTo(s, 2, n, 16);
  }

  /** Decimal digits are worth what they say, letters count on from ten, and capitals are
      worth what small letters are. */
  lemma DigitWorth(c: int)
    ensures 48 <= c <= 57 ==> DigitOf(c) == c - 48
    ensures 97 <= c <= 122 ==> DigitOf(c) == c - 87 && DigitOf(c - 32) == DigitOf(c)
    ensures !(48 <= c <= 57 || 97 <= c <= 122 || 65 <= c <= 90) ==> DigitOf(c) >= 36
  {
  }

  /** Text without digits is zero, and ends where the digits should have begun. */
  lemma NoDigits(s: seq<uint8>, base: int)
    requires Terminated(s) && 2 <= base <= 36
    requires s[0] !in {9, 32, 43, 45} && !IsDigit(s[0], base)
    ensures Parsed(s, 0, base) == (0, 0)
  {
    assert s[0..0] == [];
  }
}
