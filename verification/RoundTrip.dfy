/** What the formatter prints for a number, the parser reads back. */
module RoundTrip {
  import opened Machine
  import opened Numbers
  import opened Format
  import opened Strtol

  /** %d and back: the text reads as the argument cut to a long, to its end, exactly when the padding
      does not split sign and digits nor read as a sign. */
  lemma DecimalRoundTrip(e: Escape, args: seq<Arg>)
    requires e.conv == 100 && e.field.padc in {32, 45, 48}
    requires Convert(e, args).Some?
    ensures var n, text := GetInt(args[e.arg]), Convert(e, args).value.0;
            ReadLong(Stored(text), 0, 10) == (Wrap(n), |text|)
            <==> Readable(n, 10, e.field.width, e.field.padc)
  {
    RoundTrip(GetInt(args[e.arg]), 10, e.field.width, e.field.padc);
  }

  /** %u and back. */
  lemma UnsignedRoundTrip(e: Escape, args: seq<Arg>)
    requires e.conv == 117 && e.field.padc in {32, 45, 48}
    requires Convert(e, args).Some?
    ensures var n, text := GetUint(args[e.arg]), Convert(e, args).value.0;
            ReadLong(Stored(text), 0, 10) == (Wrap(n), |text|)
            <==> Readable(n, 10, e.field.width, e.field.padc)
  {
    var n, text := GetUint(args[e.arg]), Convert(e, args).value.0;
    assert text == NumberField(n, 10, e.field.width, e.field.padc);
    FieldRoundTrip(n, 10, e.field.width, e.field.padc, text);
  }

  /** %x and back. */
  lemma HexRoundTrip(e: Escape, args: seq<Arg>)
    requires e.conv == 120 && e.field.padc in {32, 45, 48}
    requires Convert(e, args).Some?
    ensures var n, text := GetUint(args[e.arg]), Convert(e, args).value.0;
            ReadLong(Stored(text), 0, 16) == (Wrap(n), |text|)
            <==> Readable(n, 16, e.field.width, e.field.padc)
  {
    var n, text := GetUint(args[e.arg]), Convert(e, args).value.0;
    assert text == NumberField(n, 16, e.field.width, e.field.padc);
    FieldRoundTrip(n, 16, e.field.width, e.field.padc, text);
  }

  lemma FieldRoundTrip(n: nat, base: nat, width: int, padc: uint8, text: seq<int>)
    requires (base == 10 || base == 16) && padc in {32, 45, 48}
    requires text == NumberField(n, base, width, padc)
    ensures ReadLong(Stored(text), 0, base) == (Wrap(n), |text|) <==> Readable(n, base, width, padc)
  {
    assert Printed(n, base, width, padc) == NumberField(n, base, width, padc);
    RoundTrip(n, base, width, padc);
  }

  /** %p and back, in base 16 or with the base left to the text: the prefix is read past, and
      any padding but zeros, which comes behind it, stops the reader. */
  lemma PointerRoundTrip(e: Escape, args: seq<Arg>, base: int)
    requires e.conv == 112 && e.field.padc in {32, 45, 48} && (base == 16 || base == 0)
    requires Convert(e, args).Some?
    ensures var n, text := args[e.arg].bits, Convert(e, args).value.0;
            ReadLong(Stored(text), 0, base) == (Wrap(n), |text|)
            <==> Pads(n, 16, e.field.width) <= 0 || e.field.padc == 48
  {
    var n, text := args[e.arg].bits, Convert(e, args).value.0;
    ReadPointer(n, e.field.width, e.field.padc, base, text);
  }

  lemma ReadPointer(n: uint32, width: int, padc: uint8, base: int, text: seq<int>)
    requires padc in {32, 45, 48} && (base == 16 || base == 0)
    requires text == [48, 120] + NumberField(n, 16, width, padc)
    ensures ReadLong(Stored(text), 0, base) == (Wrap(n), |text|) <==> Pads(n, 16, width) <= 0 || padc == 48
  {
    var k, ds := Pads(n, 16, width), Digits(n, 16);
    assert text == [48, 120] + (Rep(padc, k) + ds);
    if k <= 0 || padc == 48 {
      PointerRead(n, if k > 0 then k else 0, base, text);
    } else {
      ReadStopped(text, base);
    }
  }

  lemma PointerRead(n: uint32, zeros: nat, base: int, text: seq<int>)
    requires (base == 16 || base == 0) && text == [48, 120] + (Rep(48, zeros) + Digits(n, 16))
    ensures Parsed(Stored(text), 0, base) == (n as int, |text|)
  {
    DigitsAreDigits(n, 16);
    DigitsValue(n, 16);
    LeadingZeros(zeros, Digits(n, 16), 16);
    ReadPrefixed(text, Rep(48, zeros) + Digits(n, 16), base);
  }

  /** "0x" and a numeral in base 16. */
  lemma ReadPrefixed(text: seq<int>, cs: seq<int>, base: int)
    requires text == [48, 120] + cs && |cs| > 0 && IsNumeral(cs, 16) && IsLowerNumeral(cs)
    requires base == 16 || base == 0
    ensures Parsed(Stored(text), 0, base) == (Value(cs, 16) as int, |text|)
  {
    StoredAsIs(text);
    PrefixRead(Stored(text), base);
    PrefixedDigits(Stored(text), cs);
  }

  lemma PrefixedDigits(s: seq<uint8>, cs: seq<int>)
    requires s == [48, 120] + cs + [0] && |cs| > 0 && IsNumeral(cs, 16) && IsLowerNumeral(cs)
    ensures Terminated(s) && DigitsEnd(s, 2, 16) == |s| - 1 && s[2..|s| - 1] == cs
  {
    assert forall i :: 2 <= i < |s| - 1 ==> s[i] == cs[i - 2];
    DigitsRunTo(s, 2, |s| - 1, 16);
  }

  /** The reader goes past "0x" and works in base 16. */
  lemma PrefixRead(s: seq<uint8>, base: int)
    requires Terminated(s) && |s| > 2 && s[0] == 48 && s[1] == 120 && (base == 16 || base == 0)
    ensures var end := DigitsEnd(s, 2, 16); Parsed(s, 0, base) == (Value(s[2..end], 16) as int, end)
  {
    assert SkipBlanks(s, 0) == 0;
    assert Prefix(s, 0, base) == (2, 16);
  }

  /** "0x" and something that is no digit: nothing but the prefix is read. */
  lemma ReadStopped(text: seq<int>, base: int)
    requires |text| > 2 && text[0] == 48 && text[1] == 120 && text[2] in {32, 45}
    requires base == 16 || base == 0
    ensures Parsed(Stored(text), 0, base) == (0, 2)
  {
    var s := Stored(text);
    assert s[0] == 48 && s[1] == 120 && s[2] == text[2];
    PrefixRead(s, base);
    assert DigitsEnd(s, 2, 16) == 2 && s[2..2] == [];
  }

  /** Every escape pads with one of three characters. */
  lemma {:induction false} PaddingCharacters(fmt: seq<uint8>, i: nat, f: Field, args: seq<Arg>, a: nat)
    requires IsCString(fmt) && i < |fmt| && f.padc in {32, 45, 48}
    requires ReadEscape(fmt, i, f, args, a).Some?
    ensures ReadEscape(fmt, i, f, args, a).value.field.padc in {32, 45, 48}
    decreases |fmt| - i
  {
    var c := fmt[i];
    if c == 45 || c == 48 {
      PaddingCharacters(fmt, i + 1, f.(padc := c), args, a);
    } else if 49 <= c <= 57 {
      var j := NumberEnd(fmt, i);
      PaddingCharacters(fmt, j, SetNumber(f, Value(fmt[i..j], 10)), args, a);
    } else if c == 42 {
      PaddingCharacters(fmt, i + 1, SetNumber(f, Signed(args[a].bits)), args, a + 1);
    } else if c == 46 {
      PaddingCharacters(fmt, i + 1, f.(width := if f.width < 0 then 0 else f.width), args, a);
    } else if c == 35 {
      PaddingCharacters(fmt, i + 1, f.(alt := true), args, a);
    } else if c == 108 {
      PaddingCharacters(fmt, i + 1, f.(lflag := f.lflag + 1), args, a);
    }
  }
}
