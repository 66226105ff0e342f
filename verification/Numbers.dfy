/** Numerals: the digit strings that printnum emits and strtol reads. */
module Numbers {
  import opened Machine

  function DigitChar(d: nat): int
    requires d < 16
  {
    if d < 10 then 48 + d else 87 + d
  }

  /** `k` copies of `c`; none when `k` is not positive. */
  function Rep(c: int, k: int): (r: seq<int>)
    ensures |r| == if k > 0 then k else 0
    ensures forall i :: 0 <= i < |r| ==> r[i] == c
  {
    if k > 0 then seq(k, _ => c) else []
  }

  /** The numeral of `num`, most significant digit first. */
  function Digits(num: nat, base: nat): (ds: seq<int>)
    requires 2 <= base <= 16
    ensures |ds| > 0
    decreases num
  {
    if num < base then [DigitChar(num)] else Digits(num / base, base) + [DigitChar(num % base)]
  }

  function NumberField(num: nat, base: nat, width: int, padc: int): seq<int>
    requires 2 <= base <= 16
  {
    Rep(padc, width - |Digits(num, base)|) + Digits(num, base)
  }

  function Abs(x: int): nat {
    if x < 0 then -x else x
  }

  /** A signed number in print: the sign comes before the padding and outside the width. */
  function Printed(n: int, base: nat, width: int, padc: int): seq<int>
    requires 2 <= base <= 16
  {
    (if n < 0 then [45] else []) + NumberField(Abs(n), base, width, padc)
  }

  // ----- What a numeral means -----

  /** The value of a character as a digit; 36 and more is no digit of any base. */
  function DigitOf(c: int): nat {
    if 48 <= c <= 57 then c - 48
    else if 97 <= c <= 122 then c - 97 + 10
    else if 65 <= c <= 90 then c - 65 + 10
    else 36
  }

  predicate IsNumeral(cs: seq<int>, base: nat) {
    forall i :: 0 <= i < |cs| ==> DigitOf(cs[i]) < base
  }

  function Value(cs: seq<int>, base: nat): nat {
    if cs == [] then 0 else Value(cs[..|cs| - 1], base) * base + DigitOf(cs[|cs| - 1])
  }

  lemma ValueAppend(cs: seq<int>, c: int, base: nat)
    ensures Value(cs + [c], base) == Value(cs, base) * base + DigitOf(c)
  {
  }

  lemma {:induction false} DigitsAreDigits(num: nat, base: nat)
    requires 2 <= base <= 16
    ensures IsNumeral(Digits(num, base), base) && IsLowerNumeral(Digits(num, base))
    decreases num
  {
    if num >= base {
      var q, r := Halve(num, base);
      DigitsAreDigits(q, base);
      assert Digits(num, base) == Digits(q, base) + [DigitChar(r)];
    }
  }

  /** Reading the numeral back gives the number. */
  lemma {:induction false} DigitsValue(num: nat, base: nat)
    requires 2 <= base <= 16
    ensures Value(Digits(num, base), base) == num
    decreases num
  {
    if num < base {
      assert Digits(num, base)[..0] == [];
    } else {
      var q, r := Halve(num, base);
      DigitsValue(q, base);
      ValueAppend(Digits(q, base), DigitChar(r), base);
    }
  }

  lemma Halve(num: nat, base: nat) returns (q: nat, r: nat)
    requires 2 <= base <= num
    ensures q < num && r < base && q * base + r == num
    ensures q == num / base && r == num % base
  {
    q, r := num / base, num % base;
    Euclid(num, base);
  }

  lemma {:induction false} NoLeadingZero(num: nat, base: nat)
    requires 2 <= base <= 16 && num > 0
    ensures Digits(num, base)[0] != 48
    decreases num
  {
    if num >= base {
      var q, r := Halve(num, base);
      if q > 0 {
        NoLeadingZero(q, base);
      }
      assert Digits(num, base) == Digits(q, base) + [DigitChar(r)];
    }
  }

  /** The characters printnum uses: decimal digits and a to f. */
  predicate IsLowerNumeral(cs: seq<int>) {
    forall i :: 0 <= i < |cs| ==> 48 <= cs[i] <= 57 || 97 <= cs[i] <= 102
  }

  lemma DigitsAppend(v: nat, low: nat, base: nat)
    requires 2 <= base <= 16 && v > 0 && low < base
    ensures Digits(v * base + low, base) == Digits(v, base) + [DigitChar(low)]
  {
    DivMod(v, base, low);
  }

  /** The numeral is the only one without a leading zero that has its value. */
  lemma {:induction false} DigitsCanonical(cs: seq<int>, base: nat)
    requires 2 <= base <= 16 && |cs| > 0
    requires IsNumeral(cs, base) && IsLowerNumeral(cs)
    requires cs[0] != 48 || |cs| == 1
    ensures Digits(Value(cs, base), base) == cs
    decreases |cs|
  {
    if |cs| > 1 {
      var high, low := cs[..|cs| - 1], DigitOf(cs[|cs| - 1]);
      assert cs == high + [DigitChar(low)];
      DigitsCanonical(high, base);
      PositiveValue(high, base);
      DigitsAppend(Value(high, base), low, base);
    } else {
      OneDigit(cs[0], base);
      assert cs == [cs[0]];
    }
  }

  lemma OneDigit(c: int, base: nat)
    requires 2 <= base <= 16 && DigitOf(c) < base && IsLowerNumeral([c])
    ensures Digits(Value([c], base), base) == [c]
  {
    ValueAppend([], c, base);
    assert [] + [c] == [c];
  }

  lemma {:induction false} PositiveValue(cs: seq<int>, base: nat)
    requires 2 <= base <= 16 && |cs| > 0 && IsLowerNumeral(cs) && cs[0] != 48
    ensures Value(cs, base) > 0
    decreases |cs|
  {
    if |cs| > 1 {
      PositiveValue(cs[..|cs| - 1], base);
      Scaled(Value(cs[..|cs| - 1], base), base);
    }
  }

  lemma DivMod(v: nat, base: nat, low: nat)
    requires v > 0 && low < base
    ensures (v * base + low) / base == v && (v * base + low) % base == low && v * base + low >= base
  {
    var x := v * base + low;
    var q, r := x / base, x % base;
    Euclid(x, base);
    assert (v - q) * base == r - low;
    if v > q {
      Scaled(v - q, base);
    } else if v < q {
      Scaled(q - v, base);
    }
    Scaled(v, base);
  }

  lemma Scaled(k: nat, base: nat)
    requires k > 0
    ensures k * base >= base
  {
  }

  lemma Euclid(x: nat, base: nat)
    requires base > 0
    ensures x == x / base * base + x % base && 0 <= x % base < base
  {
  }

  /** The field is the numeral, padded on the left to the width and never cut. */
  lemma FieldLayout(num: nat, base: nat, width: int, padc: int)
    requires 2 <= base <= 16
    ensures var f, d := NumberField(num, base, width, padc), |Digits(num, base)|;
            && |f| == (if width > d then width else d)
            && f[|f| - d..] == Digits(num, base)
            && forall i :: 0 <= i < |f| - d ==> f[i] == padc
  {
  }

  /** Zeros in front do not change the value. */
  lemma {:induction false} LeadingZeros(k: nat, cs: seq<int>, base: nat)
    ensures Value(Rep(48, k) + cs, base) == Value(cs, base)
    decreases |cs|, k
  {
    if cs == [] {
      assert Rep(48, k) + cs == Rep(48, k);
      if k > 0 {
        assert Rep(48, k)[..k - 1] == Rep(48, k - 1) + [];
        LeadingZeros(k - 1, [], base);
      }
    } else {
      var init := cs[..|cs| - 1];
      assert (Rep(48, k) + cs)[..k + |cs| - 1] == Rep(48, k) + init;
      LeadingZeros(k, init, base);
    }
  }

  // ----- Where the layout is not what the comments promise -----

  /** A printed number is as wide as the larger of the width and its own length exactly when
      it has no sign or no padding: the sign does not count towards the width. */
  lemma SignOutsideWidthIff(n: int, base: nat, width: int, padc: int)
    requires 2 <= base <= 16
    ensures var d := |Digits(Abs(n), base)|;
            var len := d + if n < 0 then 1 else 0;
            |Printed(n, base, width, padc)| == (if width > len then width else len) <==> n >= 0 || width <= d
  {
  }

  /** Flag '-' puts a number at the left end of its field exactly when there is nothing to pad. */
  lemma DashPadsRightIff(num: nat, base: nat, width: int)
    requires 2 <= base <= 16
    ensures var ds := Digits(num, base);
            NumberField(num, base, width, 45) == ds + Rep(32, width - |ds|) <==> width <= |ds|
  {
    var ds := Digits(num, base);
    var f, g := NumberField(num, base, width, 45), ds + Rep(32, width - |ds|);
    if width > |ds| {
      assert f[|f| - 1] == ds[|ds| - 1] && g[|g| - 1] == 32;
      DigitsAreDigits(num, base);
    }
  }
}
