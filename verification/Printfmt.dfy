/** The format interpreter. */
module Printfmt {
  import opened Machine
  import opened Numbers
  import opened Format
  import Sink
  import Screen
  import Terminal
  import Strings

  lemma RepNext(c: int, k: nat)
    ensures Rep(c, k + 1) == Rep(c, k) + [c]
  {
  }

  /** A padding loop: width characters, if width is positive. */
  method Pad(out: Sink.PutDat, padc: int, width0: int)
    requires out.Valid()
    modifies out.Frame()
    ensures out.Valid() && out.log == old(out.log) + Rep(padc, width0)
  {
    var width := width0;
    ghost var was := out.log;
    ghost var done: nat := 0;
    while width > 0
      invariant out.Valid() && width == width0 - done && (width0 >= 0 ==> width >= 0) && (width0 < 0 ==> done == 0)
      invariant out.log == was + Rep(padc, done)
    {
      out.Putch(padc);
      RepNext(padc, done);
      width, done := width - 1, done + 1;
    }
  }

  /** What precedes the last digit of a number's field. */
  function Leading(num: nat, base: nat, width: int, padc: int): seq<int>
    requires 2 <= base <= 16
  {
    if num >= base then NumberField(num / base, base, width - 1, padc) else Rep(padc, width - 1)
  }

  lemma LastDigit(num: nat, base: nat, width: int, padc: int) returns (d: nat)
    requires 2 <= base <= 16
    ensures d == num % base < base
    ensures num >= base ==> 0 <= num / base < num
    ensures NumberField(num, base, width, padc) == Leading(num, base, width, padc) + [DigitChar(d)]
  {
    d := num % base;
    if num >= base {
      var q, r := Halve(num, base);
    }
  }

  /** Emits a number of base at most 16, most significant digit first, after its padding. */
  method Printnum(out: Sink.PutDat, num: nat, base: nat, width: int, padc: uint8)
    requires out.Valid() && 2 <= base <= 16
    modifies out.Frame()
    ensures out.Valid() && out.log == old(out.log) + NumberField(num, base, width, padc)
    decreases num, 1
  {
    ghost var d := LastDigit(num, base, width, padc);
    PrintLeading(out, num, base, width, padc);
    out.Putch(DigitChar(num % base));
  }

  method PrintLeading(out: Sink.PutDat, num: nat, base: nat, width: int, padc: uint8)
    requires out.Valid() && 2 <= base <= 16 && (num >= base ==> 0 <= num / base < num)
    modifies out.Frame()
    ensures out.Valid() && out.log == old(out.log) + Leading(num, base, width, padc)
    decreases num, 0
  {
    if num >= base {
      Printnum(out, num / base, base, width - 1, padc);
    } else {
      Pad(out, padc, width - 1);
    }
  }

  // ----- Reading an escape -----

  lemma {:induction false} ValuePrefix(cs: seq<int>, k: nat)
    requires k <= |cs| && IsNumeral(cs, 10)
    ensures Value(cs[..k], 10) <= Value(cs, 10)
    decreases |cs|
  {
    if k < |cs| {
      var init := cs[..|cs| - 1];
      ValuePrefix(init, k);
      assert init[..k] == cs[..k];
    } else {
      assert cs[..k] == cs;
    }
  }

  /** One more digit of a number that fits: no step of the computation overflows. */
  lemma DigitFits(fmt: seq<uint8>, start: nat, i: nat, end: nat)
    requires IsCString(fmt) && start <= i < end < |fmt| && end == NumberEnd(fmt, start)
    requires Value(fmt[start..end], 10) + 48 <= INT_MAX
    ensures Value(fmt[start..i + 1], 10) == Value(fmt[start..i], 10) * 10 + fmt[i] - 48
    ensures Value(fmt[start..i], 10) * 10 + fmt[i] <= INT_MAX
  {
    NextDigit(fmt[start..end], fmt[start..i], fmt[start..i + 1], fmt[i]);
  }

  lemma NextDigit(digits: seq<int>, head: seq<int>, more: seq<int>, c: int)
    requires more == head + [c] && more <= digits && 48 <= c <= 57 && IsNumeral(digits, 10)
    ensures Value(more, 10) == Value(head, 10) * 10 + c - 48
    ensures Value(more, 10) <= Value(digits, 10)
  {
    ValueAppend(head, c, 10);
    ValuePrefix(digits, |more|);
    assert digits[..|more|] == more;
  }

  /** The loop over a width or precision; entered just past its first digit. */
  method ReadNumber(fmt: seq<uint8>, start: nat) returns (i: nat, precision: int)
    requires IsCString(fmt) && start < |fmt| && IsDecimal(fmt[start])
    requires Value(fmt[start..NumberEnd(fmt, start)], 10) + 48 <= INT_MAX
    ensures i == NumberEnd(fmt, start) && precision == Value(fmt[start..i], 10)
  {
    var ch := fmt[start];
    i := start + 1;
    precision := 0;
    ghost var end := NumberEnd(fmt, start);
    while true
      invariant start < i <= end && end == NumberEnd(fmt, i - 1)
      invariant ch == fmt[i - 1] && precision == Value(fmt[start..i - 1], 10)
      decreases |fmt| - i
    {
      DigitFits(fmt, start, i - 1, end);
      precision := precision * 10 + ch - 48;
      ch := fmt[i];
      if ch < 48 || ch > 57 {
        break;
      }
      i := i + 1;
    }
  }

  /** The reswitch loop: flags, width and precision, up to the conversion character. */
  method ReadField(fmt: seq<uint8>, start: nat, args: seq<Arg>, ap0: nat)
    returns (ch: uint8, padc: uint8, width: int, precision: int, lflag: nat, altflag: bool, i: nat, ap: nat)
    requires IsCString(fmt) && start < |fmt|
    requires ReadEscape(fmt, start, PLAIN, args, ap0).Some?
    ensures ReadEscape(fmt, start, PLAIN, args, ap0)
            == Some(Escape(ch, Field(padc, width, precision, lflag, altflag), i, ap))
  {
    padc, width, precision, lflag, altflag := 32, -1, -1, 0, false;
    i, ap := start, ap0;
    ghost var e := ReadEscape(fmt, start, PLAIN, args, ap0);
    while true
      invariant i < |fmt|
      invariant ReadEscape(fmt, i, Field(padc, width, precision, lflag, altflag), args, ap) == e
      decreases |fmt| - i
    {
      ch := fmt[i];
      i := i + 1;
      if ch == 45 || ch == 48 {
        padc := ch;
      } else if (49 <= ch <= 57) || ch == 42 {
        if ch == 42 {
          precision := Signed(args[ap].bits);
          ap := ap + 1;
        } else {
          i, precision := ReadNumber(fmt, i - 1);
        }
        if width < 0 {
          width, precision := precision, -1;
        }
      } else if ch == 46 {
        if width < 0 {
          width := 0;
        }
      } else if ch == 35 {
        altflag := true;
      } else if ch == 108 {
        lflag := lflag + 1;
      } else {
        return;
      }
    }
  }

  // ----- Conversions -----

  function ShownChars(s: seq<uint8>, n: nat, alt: bool): seq<int>
    requires n <= |s|
  {
    seq(n, i requires 0 <= i < n => Shown(s[i], alt))
  }

  lemma ShownNext(s: seq<uint8>, n: nat, alt: bool)
    requires n < |s|
    ensures ShownChars(s, n + 1, alt) == ShownChars(s, n, alt) + [Shown(s[n], alt)]
  {
  }

  method PutShown(out: Sink.PutDat, p: seq<uint8>, i: nat, altflag: bool, ghost was: seq<int>)
    requires out.Valid() && i < |p| && out.log == was + ShownChars(p, i, altflag)
    modifies out.Frame()
    ensures out.Valid() && out.log == was + ShownChars(p, i + 1, altflag)
  {
    var ch := SignedChar(p[i]);
    out.Putch(if altflag && (ch < 32 || ch > 126) then 63 else ch);
    ShownNext(p, i, altflag);
  }

  /** The loop over the characters of a string; answers what is left of the width. */
  method PutChars(out: Sink.PutDat, p: seq<uint8>, width0: int, precision0: int, altflag: bool) returns (width: int)
    requires out.Valid() && IsCString(p)
    modifies out.Frame()
    ensures out.Valid() && width == width0 - Kept(p, precision0)
    ensures out.log == old(out.log) + ShownChars(p, Kept(p, precision0), altflag)
  {
    ghost var was, kept := out.log, Kept(p, precision0);
    var i, precision := 0, precision0;
    width := width0;
    while true
      invariant out.Valid() && 0 <= i <= kept && width == width0 - i
      invariant precision == if precision0 < 0 then precision0 else precision0 - i
      invariant out.log == was + ShownChars(p, i, altflag)
      decreases |p| - i
    {
      var ch := SignedChar(p[i]);
      if ch == 0 {
        break;
      }
      if !(precision < 0) {
        precision := precision - 1;
        if !(precision >= 0) {
          break;
        }
      }
      PutShown(out, p, i, altflag, was);
      i, width := i + 1, width - 1;
    }
  }

  /** The padding that precedes a string. */
  function LeftPart(padc: uint8, width: int): seq<int> {
    if padc == 45 then [] else Rep(padc, width)
  }

  lemma StringFieldParts(p: seq<uint8>, f: Field, width: int, before: seq<int>)
    requires IsCString(p)
    requires if f.padc == 45 then width == f.width - Kept(p, f.precision) else width <= 0
    ensures before + LeftPart(f.padc, f.width - Kept(p, f.precision))
              + ShownChars(p, Kept(p, f.precision), f.alt) + Rep(32, width)
            == before + StringField(p, f)
  {
  }

  /** How many characters will be printed: no precision counts as the largest one. */
  method MeasureString(p: seq<uint8>, precision: int) returns (len: nat)
    requires IsCString(p) && |p| <= INT_MAX && -0x8000_0000 <= precision <= INT_MAX
    ensures len == Kept(p, precision)
  {
    len := Strings.Strnlen(p, precision % WORD_SIZE);
  }

  /** Padding on the left, unless flag '-' is given; answers what is left of the width. */
  method PadLeft(out: Sink.PutDat, p: seq<uint8>, padc: uint8, width0: int, precision: int) returns (width: int)
    requires out.Valid() && IsCString(p) && |p| <= INT_MAX && -0x8000_0000 <= precision <= INT_MAX
    modifies out.Frame()
    ensures out.Valid() && out.log == old(out.log) + LeftPart(padc, width0 - Kept(p, precision))
    ensures if padc == 45 then width == width0 else width <= 0
  {
    width := width0;
    if width > 0 && padc != 45 {
      var len := MeasureString(p, precision);
      width := width - len;
      Pad(out, padc, width);
      width := if width > 0 then 0 else width;
    } else {
      assert LeftPart(padc, width0 - Kept(p, precision)) == [];
    }
  }

  method PrintString(out: Sink.PutDat, p: seq<uint8>, f: Field)
    requires out.Valid() && IsCString(p) && |p| <= INT_MAX && Ints(f)
    modifies out.Frame()
    ensures out.Valid() && out.log == old(out.log) + StringField(p, f)
  {
    ghost var was := out.log;
    var width := PadLeft(out, p, f.padc, f.width, f.precision);
    width := PutChars(out, p, width, f.precision, f.alt);
    StringFieldParts(p, f, width, was);
    Pad(out, 32, width);
  }

  // ----- The interpreter -----

  const ERROR_FMT: seq<uint8> := CString("error %d")
  const STRING_FMT: seq<uint8> := CString("%s")

  /** An escape can end in 'e': only then does the interpreter re-enter itself. */
  ghost predicate CanReenter(fmt: seq<uint8>) {
    exists k, j :: 0 <= k < j < |fmt| && fmt[k] == 37 && fmt[j] == 101
  }

  lemma NestedFormats()
    ensures IsCString(ERROR_FMT) && !CanReenter(ERROR_FMT)
    ensures IsCString(STRING_FMT) && !CanReenter(STRING_FMT)
  {
  }

  lemma EmittedPlain(fmt: seq<uint8>, i: nat, args: seq<Arg>, a: nat)
    requires IsCString(fmt) && i < |fmt| && fmt[i] != 0 && fmt[i] != 37
    ensures Emitted(fmt, i, args, a) == Prepend([fmt[i]], Emitted(fmt, i + 1, args, a))
  {
  }

  lemma PrependTwice(fmt: seq<uint8>, i: nat, j: nat, rest: Option<seq<int>>)
    requires i < j <= |fmt|
    ensures Prepend([fmt[i]], Prepend(fmt[i + 1..j], rest)) == Prepend(fmt[i..j], rest)
  {
    if rest.Some? {
      assert [fmt[i]] + (fmt[i + 1..j] + rest.value) == fmt[i..j] + rest.value;
    }
  }

  /** Characters that are neither a percent sign nor the end stand for themselves. */
  lemma {:induction false} EmittedRun(fmt: seq<uint8>, i: nat, j: nat, args: seq<Arg>, a: nat)
    requires IsCString(fmt) && i <= j < |fmt|
    requires forall k :: i <= k < j ==> fmt[k] != 0 && fmt[k] != 37
    ensures Emitted(fmt, i, args, a) == Prepend(fmt[i..j], Emitted(fmt, j, args, a))
    decreases j - i
  {
    var rest := Emitted(fmt, j, args, a);
    if i == j {
      if rest.Some? {
        assert fmt[i..j] + rest.value == rest.value;
      }
    } else {
      EmittedRun(fmt, i + 1, j, args, a);
      EmittedPlain(fmt, i, args, a);
      PrependTwice(fmt, i, j, rest);
    }
  }

  lemma ErrorFmtOutput(err: nat)
    requires err <= INT_MAX
    ensures IsCString(ERROR_FMT)
    ensures Output(ERROR_FMT, [Word(err)]) == Some(Chars("error ") + Digits(err, 10))
  {
    NestedFormats();
    var fmt := ERROR_FMT;
    assert fmt == [101, 114, 114, 111, 114, 32, 37, 100, 0];
    var args := [Word(err)];
    EmittedRun(fmt, 0, 6, args, 0);
    assert fmt[0..6] == Chars("error ");
    DecimalEscape(fmt, err);
  }

  lemma DecimalEscape(fmt: seq<uint8>, err: nat)
    requires err <= INT_MAX && fmt == [101, 114, 114, 111, 114, 32, 37, 100, 0]
    ensures Emitted(fmt, 6, [Word(err)], 0) == Some(Digits(err, 10))
  {
    var args := [Word(err)];
    assert ReadEscape(fmt, 7, PLAIN, args, 0) == Some(Escape(100, PLAIN, 8, 0));
    assert Emitted(fmt, 8, args, 1) == Some([]);
    assert SignedField(err, PLAIN) == Digits(err, 10);
    assert Digits(err, 10) + [] == Digits(err, 10);
  }

  lemma StringFmtOutput(p: seq<uint8>)
    requires IsCString(p) && |p| <= INT_MAX
    ensures IsCString(STRING_FMT)
    ensures Output(STRING_FMT, [Text(p)]) == Some(StringField(p, PLAIN))
  {
    NestedFormats();
    var fmt, args := STRING_FMT, [Text(p)];
    assert fmt == [37, 115, 0];
    assert ReadEscape(fmt, 1, PLAIN, args, 0) == Some(Escape(115, PLAIN, 2, 0));
    assert Emitted(fmt, 2, args, 1) == Some([]);
    assert StringField(p, PLAIN) + [] == StringField(p, PLAIN);
  }

  predicate IsAscii(text: string) {
    forall i :: 0 <= i < |text| ==> 0 < (text[i] as int) < 0x80
  }

  lemma AsciiText(text: string)
    requires IsAscii(text)
    ensures IsCString(CString(text)) && StringField(CString(text), PLAIN) == Chars(text)
  {
  }

  lemma ErrorStringsAreAscii(err: nat)
    ensures ErrorString(err).Some? ==> |ErrorString(err).value| < INT_MAX && IsAscii(ErrorString(err).value)
  {
    match err
    case 1 => assert IsAscii("unspecified error");
    case 2 => assert IsAscii("bad environment");
    case 3 => assert IsAscii("invalid parameter");
    case 4 => assert IsAscii("out of memory");
    case 5 => assert IsAscii("out of environments");
    case 6 => assert IsAscii("segmentation fault");
    case _ =>
  }

  lemma ErrorStringOutput(err: nat)
    requires ErrorString(err).Some?
    ensures IsCString(STRING_FMT)
    ensures Output(STRING_FMT, [Text(CString(ErrorString(err).value))]) == Some(ErrorText(err))
  {
    ErrorStringsAreAscii(err);
    AsciiText(ErrorString(err).value);
    StringFmtOutput(CString(ErrorString(err).value));
  }

  ghost function Depth(fmt: seq<uint8>): nat {
    if CanReenter(fmt) then 1 else 0
  }

  /** %e: the text of an error code, printed by the interpreter itself. */
  method PrintError(out: Sink.PutDat, err0: int)
    requires out.Valid() && -0x8000_0000 < err0 <= INT_MAX
    modifies out.Frame()
    ensures out.Valid() && out.log == old(out.log) + ErrorText(Abs(err0))
    decreases 1, 0, 0
  {
    var err := if err0 < 0 then -err0 else err0;
    NestedFormats();
    if err >= MAXERROR || ErrorString(err) == None {
      ErrorFmtOutput(err);
      PrintNested(out, ERROR_FMT, [Word(err)], ErrorText(err));
    } else {
      ErrorStringOutput(err);
      PrintNested(out, STRING_FMT, [Text(CString(ErrorString(err).value))], ErrorText(err));
    }
  }

  /** The interpreter called from within itself. */
  method PrintNested(out: Sink.PutDat, fmt: seq<uint8>, args: seq<Arg>, ghost text: seq<int>)
    requires out.Valid() && IsCString(fmt) && !CanReenter(fmt) && Output(fmt, args) == Some(text)
    modifies out.Frame()
    ensures out.Valid() && out.log == old(out.log) + text
    decreases 0, 3
  {
    Vprintfmt(out, fmt, args);
  }

  method PutSign(out: Sink.PutDat, num: int) returns (magnitude: nat)
    requires out.Valid()
    modifies out.Frame()
    ensures out.Valid() && out.log == old(out.log) + (if num < 0 then [45] else []) && magnitude == Abs(num)
  {
    if num < 0 {
      out.Putch(45);
    }
    magnitude := if num < 0 then -num else num;
  }

  lemma SignedParts(before: seq<int>, num: int, f: Field)
    ensures before + SignedField(num, f)
            == before + (if num < 0 then [45] else []) + NumberField(Abs(num), 10, f.width, f.padc)
  {
  }

  /** The number label: sign, then the padded digits. */
  method PrintSigned(out: Sink.PutDat, num: int, f: Field)
    requires out.Valid()
    modifies out.Frame()
    ensures out.Valid() && out.log == old(out.log) + SignedField(num, f)
  {
    SignedParts(out.log, num, f);
    var magnitude := PutSign(out, num);
    Printnum(out, magnitude, 10, f.width, f.padc);
  }

  method PrintPointer(out: Sink.PutDat, num: uint32, f: Field)
    requires out.Valid()
    modifies out.Frame()
    ensures out.Valid() && out.log == old(out.log) + ([48, 120] + NumberField(num, 16, f.width, f.padc))
  {
    PutHexMark(out);
    Printnum(out, num, 16, f.width, f.padc);
  }

  method PutHexMark(out: Sink.PutDat)
    requires out.Valid()
    modifies out.Frame()
    ensures out.Valid() && out.log == old(out.log) + [48, 120]
  {
    out.Putch(48);
    out.Putch(120);
  }

  /** %o is a placeholder in the source. */
  method PrintOctal(out: Sink.PutDat)
    requires out.Valid()
    modifies out.Frame()
    ensures out.Valid() && out.log == old(out.log) + [88, 88, 88]
  {
    out.Putch(88);
    out.Putch(88);
    out.Putch(88);
  }

  /** %s: a null pointer prints as "(null)". */
  method PrintText(out: Sink.PutDat, arg: Arg, f: Field)
    requires out.Valid() && Ints(f)
    requires arg.NullText? || (arg.Text? && IsCString(arg.bytes) && |arg.bytes| <= INT_MAX)
    modifies out.Frame()
    ensures out.Valid()
    ensures out.log == old(out.log) + StringField(if arg.Text? then arg.bytes else NULL_TEXT, f)
  {
    PrintString(out, if arg.NullText? then NULL_TEXT else arg.bytes, f);
  }

  /** The switch over the conversion characters that are known. */
  method Conversion(out: Sink.PutDat, e: Escape, args: seq<Arg>, ghost text: seq<int>) returns (ap: nat)
    requires out.Valid() && IsConversion(e.conv) && Ints(e.field)
    requires Convert(e, args).Some? && text == Convert(e, args).value.0
    modifies out.Frame()
    ensures out.Valid() && out.log == old(out.log) + text && ap == Convert(e, args).value.1
    decreases if e.conv == 101 then 1 else 0, 0, 1
  {
    var f := e.field;
    ap := e.arg + 1;
    match e.conv {
      case 99 =>
        out.Putch(Signed(args[e.arg].bits));
      case 101 =>
        PrintError(out, Signed(args[e.arg].bits));
      case 115 =>
        PrintText(out, args[e.arg], f);
      case 111 =>
        PrintOctal(out);
        ap := e.arg;
      case 37 =>
        out.Putch(37);
        ap := e.arg;
      case _ =>
        PrintNumber(out, e, args, text);
    }
  }

  /** The conversions that meet at the number label. */
  method PrintNumber(out: Sink.PutDat, e: Escape, args: seq<Arg>, ghost text: seq<int>)
    requires out.Valid() && e.conv in {100, 112, 117, 120}
    requires Convert(e, args).Some? && text == Convert(e, args).value.0
    modifies out.Frame()
    ensures out.Valid() && out.log == old(out.log) + text
  {
    var f := e.field;
    match e.conv {
      case 100 =>
        PrintSigned(out, GetInt(args[e.arg]), f);
      case 112 =>
        PrintPointer(out, args[e.arg].bits, f);
      case 117 =>
        Printnum(out, GetUint(args[e.arg]), 10, f.width, f.padc);
      case _ =>
        Printnum(out, GetUint(args[e.arg]), 16, f.width, f.padc);
    }
  }

  lemma CanReenterHere(fmt: seq<uint8>, k: nat, j: nat)
    requires k < j < |fmt| && fmt[k] == 37 && fmt[j] == 101
    ensures Depth(fmt) == 1
  {
  }

  /** An unknown escape: back to just past the percent sign. */
  method Rewind(fmt: seq<uint8>, start: nat, at: nat) returns (i: nat)
    requires 0 < start < at <= |fmt| && fmt[start - 1] == 37
    requires forall k :: start <= k < at - 1 ==> fmt[k] != 37
    ensures i == start
  {
    i := at - 1;
    while fmt[i - 1] != 37
      invariant start <= i < at
      decreases i
    {
      i := i - 1;
    }
  }

  /** An unknown escape stands for itself: its percent sign, then its characters read over again. */
  lemma UnknownEscape(fmt: seq<uint8>, i: nat, args: seq<Arg>, a: nat)
    requires IsCString(fmt) && i < |fmt| - 1 && fmt[i] == 37
    requires ReadEscape(fmt, i + 1, PLAIN, args, a).Some?
    requires !IsConversion(ReadEscape(fmt, i + 1, PLAIN, args, a).value.conv)
    ensures var e := ReadEscape(fmt, i + 1, PLAIN, args, a).value;
            Emitted(fmt, i, args, a) == Prepend([37], Emitted(fmt, i + 1, args, e.arg))
  {
    var e := ReadEscape(fmt, i + 1, PLAIN, args, a).value;
    var end := if e.conv == 0 then e.at - 1 else e.at;
    assert e.conv != 0 ==> e.at < |fmt|;
    EmittedRun(fmt, i + 1, end, args, e.arg);
    PrependTwice(fmt, i, end, Emitted(fmt, end, args, e.arg));
  }

  /** After `log`, what the format from `i` on still emits completes `all`. */
  ghost predicate Owed(log: seq<int>, fmt: seq<uint8>, i: nat, args: seq<Arg>, ap: nat, all: seq<int>)
    requires IsCString(fmt) && i < |fmt|
  {
    Emitted(fmt, i, args, ap).Some? && log + Emitted(fmt, i, args, ap).value == all
  }

  /** What the escape at `i` calls for: a conversion, or a percent sign and a second reading. */
  lemma OwedEscape(log: seq<int>, fmt: seq<uint8>, i: nat, args: seq<Arg>, ap: nat, all: seq<int>)
    requires IsCString(fmt) && i < |fmt| && fmt[i] == 37 && Owed(log, fmt, i, args, ap, all)
    ensures i + 1 < |fmt| && ReadEscape(fmt, i + 1, PLAIN, args, ap).Some?
    ensures var e := ReadEscape(fmt, i + 1, PLAIN, args, ap).value;
            if IsConversion(e.conv) then
              e.at < |fmt| && Convert(e, args).Some?
              && Owed(log + Convert(e, args).value.0, fmt, e.at, args, Convert(e, args).value.1, all)
            else
              Owed(log + [37], fmt, i + 1, args, e.arg, all)
  {
    assert ReadEscape(fmt, i + 1, PLAIN, args, ap).Some?;
    if IsConversion(ReadEscape(fmt, i + 1, PLAIN, args, ap).value.conv) {
      OwedConversion(log, fmt, i, args, ap, all);
    } else {
      OwedUnknown(log, fmt, i, args, ap, all);
    }
  }

  lemma OwedConversion(log: seq<int>, fmt: seq<uint8>, i: nat, args: seq<Arg>, ap: nat, all: seq<int>)
    requires IsCString(fmt) && i < |fmt| - 1 && fmt[i] == 37 && Owed(log, fmt, i, args, ap, all)
    requires ReadEscape(fmt, i + 1, PLAIN, args, ap).Some?
    requires IsConversion(ReadEscape(fmt, i + 1, PLAIN, args, ap).value.conv)
    ensures var e := ReadEscape(fmt, i + 1, PLAIN, args, ap).value;
            && e.at < |fmt| && Convert(e, args).Some?
            && Owed(log + Convert(e, args).value.0, fmt, e.at, args, Convert(e, args).value.1, all)
  {
    ConversionEscape(fmt, i, args, ap);
    var e := ReadEscape(fmt, i + 1, PLAIN, args, ap).value;
    var r := Convert(e, args).value;
    OwedRest(log, r.0, Emitted(fmt, e.at, args, r.1), Emitted(fmt, i, args, ap), all);
  }

  lemma OwedUnknown(log: seq<int>, fmt: seq<uint8>, i: nat, args: seq<Arg>, ap: nat, all: seq<int>)
    requires IsCString(fmt) && i < |fmt| - 1 && fmt[i] == 37 && Owed(log, fmt, i, args, ap, all)
    requires ReadEscape(fmt, i + 1, PLAIN, args, ap).Some?
    requires !IsConversion(ReadEscape(fmt, i + 1, PLAIN, args, ap).value.conv)
    ensures Owed(log + [37], fmt, i + 1, args, ReadEscape(fmt, i + 1, PLAIN, args, ap).value.arg, all)
  {
    UnknownEscape(fmt, i, args, ap);
    var e := ReadEscape(fmt, i + 1, PLAIN, args, ap).value;
    OwedRest(log, [37], Emitted(fmt, i + 1, args, e.arg), Emitted(fmt, i, args, ap), all);
  }

  lemma OwedRest(log: seq<int>, text: seq<int>, rest: Option<seq<int>>, whole: Option<seq<int>>, all: seq<int>)
    requires whole == Prepend(text, rest) && whole.Some? && log + whole.value == all
    ensures rest.Some? && log + text + rest.value == all
  {
  }

  lemma ConversionEscape(fmt: seq<uint8>, i: nat, args: seq<Arg>, a: nat)
    requires IsCString(fmt) && i < |fmt| - 1 && fmt[i] == 37
    requires ReadEscape(fmt, i + 1, PLAIN, args, a).Some?
    requires IsConversion(ReadEscape(fmt, i + 1, PLAIN, args, a).value.conv)
    requires Emitted(fmt, i, args, a).Some?
    ensures var e := ReadEscape(fmt, i + 1, PLAIN, args, a).value;
            && e.at < |fmt| && Convert(e, args).Some?
            && Emitted(fmt, i, args, a)
               == Prepend(Convert(e, args).value.0, Emitted(fmt, e.at, args, Convert(e, args).value.1))
  {
  }

  /** The characters from `i` to `j` are literal, and have been emitted. */
  ghost predicate LiteralsPut(was: seq<int>, log: seq<int>, fmt: seq<uint8>, i: nat, j: nat)
    requires i <= j <= |fmt|
  {
    log == was + fmt[i..j] && forall k :: i <= k < j ==> fmt[k] != 0 && fmt[k] != 37
  }

  lemma SliceNext(fmt: seq<uint8>, i: nat, j: nat)
    requires i <= j < |fmt|
    ensures fmt[i..j + 1] == fmt[i..j] + [fmt[j]]
  {
  }

  /** Emits a literal character and reads the next one. */
  method PutLiteral(out: Sink.PutDat, fmt: seq<uint8>, i: nat, j: nat, ghost was: seq<int>) returns (ch: uint8)
    requires out.Valid() && i <= j < |fmt| && fmt[|fmt| - 1] == 0 && fmt[j] != 0 && fmt[j] != 37
    requires LiteralsPut(was, out.log, fmt, i, j)
    modifies out.Frame()
    ensures out.Valid() && j + 1 < |fmt| && ch == fmt[j + 1] && LiteralsPut(was, out.log, fmt, i, j + 1)
  {
    SliceNext(fmt, i, j);
    out.Putch(fmt[j]);
    ch := fmt[j + 1];
  }

  /** Literal characters up to a percent sign or the end, which is left in `ch`. */
  method Literals(out: Sink.PutDat, fmt: seq<uint8>, i0: nat) returns (ch: uint8, i: nat)
    requires out.Valid() && i0 < |fmt| && fmt[|fmt| - 1] == 0
    modifies out.Frame()
    ensures out.Valid() && i0 < i <= |fmt| && ch == fmt[i - 1] && (ch == 37 || ch == 0)
    ensures LiteralsPut(old(out.log), out.log, fmt, i0, i - 1)
  {
    ghost var was := out.log;
    ch := fmt[i0];
    i := i0 + 1;
    while ch != 37
      invariant out.Valid() && i0 < i <= |fmt| && ch == fmt[i - 1]
      invariant LiteralsPut(was, out.log, fmt, i0, i - 1)
      decreases |fmt| - i
    {
      if ch == 0 {
        return;
      }
      ch := PutLiteral(out, fmt, i0, i - 1, was);
      i := i + 1;
    }
  }

  lemma OwedRun(was: seq<int>, log: seq<int>, fmt: seq<uint8>, i: nat, j: nat, args: seq<Arg>, ap: nat, all: seq<int>)
    requires IsCString(fmt) && i <= j < |fmt| && Owed(was, fmt, i, args, ap, all) && LiteralsPut(was, log, fmt, i, j)
    ensures Owed(log, fmt, j, args, ap, all)
  {
    EmittedRun(fmt, i, j, args, ap);
    var rest := Emitted(fmt, j, args, ap).value;
    assert was + fmt[i..j] + rest == was + (fmt[i..j] + rest);
  }

  /** What is owed after the literal characters. */
  method EmitLiterals(out: Sink.PutDat, fmt: seq<uint8>, i0: nat, ghost args: seq<Arg>, ghost ap: nat,
                      ghost all: seq<int>)
    returns (ch: uint8, i: nat)
    requires out.Valid() && IsCString(fmt) && i0 < |fmt| && Owed(out.log, fmt, i0, args, ap, all)
    modifies out.Frame()
    ensures out.Valid() && i0 < i <= |fmt| && ch == fmt[i - 1] && (ch == 37 || ch == 0)
    ensures Owed(out.log, fmt, i - 1, args, ap, all)
  {
    ghost var was := out.log;
    ch, i := Literals(out, fmt, i0);
    OwedRun(was, out.log, fmt, i0, i - 1, args, ap, all);
  }

  /** Emits exactly what the format and its arguments specify. */
  method Vprintfmt(out: Sink.PutDat, fmt: seq<uint8>, args: seq<Arg>)
    requires out.Valid() && IsCString(fmt) && Output(fmt, args).Some?
    modifies out.Frame()
    ensures out.Valid() && out.log == old(out.log) + Output(fmt, args).value
    decreases Depth(fmt), 2
  {
    ghost var all := out.log + Output(fmt, args).value;
    var i, ap := 0, 0;
    while true
      invariant out.Valid() && i < |fmt| && Owed(out.log, fmt, i, args, ap, all)
      decreases |fmt| - i
    {
      var ch;
      ch, i := EmitLiterals(out, fmt, i, args, ap, all);
      if ch == 0 {
        assert Emitted(fmt, i - 1, args, ap) == Some([]);
        return;
      }
      i, ap := OneEscape(out, fmt, i, args, ap, all);
    }
  }

  /** The part of the loop after a percent sign. */
  method OneEscape(out: Sink.PutDat, fmt: seq<uint8>, start: nat, args: seq<Arg>, ap0: nat, ghost all: seq<int>)
    returns (i: nat, ap: nat)
    requires out.Valid() && IsCString(fmt) && 0 < start <= |fmt| && fmt[start - 1] == 37
    requires Owed(out.log, fmt, start - 1, args, ap0, all)
    modifies out.Frame()
    ensures out.Valid() && start <= i < |fmt| && Owed(out.log, fmt, i, args, ap, all)
    decreases Depth(fmt), 1
  {
    OwedEscape(out.log, fmt, start - 1, args, ap0, all);
    var ch, padc, width, precision, lflag, altflag, at, arg := ReadField(fmt, start, args, ap0);
    if IsConversion(ch) {
      ap := KnownEscape(out, fmt, start, Escape(ch, Field(padc, width, precision, lflag, altflag), at, arg), args, ap0);
      i := at;
    } else {
      out.Putch(37);
      i := Rewind(fmt, start, at);
      ap := arg;
    }
  }

  /** An escape that ends in a known conversion character. */
  method KnownEscape(out: Sink.PutDat, ghost fmt: seq<uint8>, ghost start: nat, e: Escape, args: seq<Arg>,
                     ghost ap0: nat)
    returns (ap: nat)
    requires out.Valid() && IsCString(fmt) && 0 < start < |fmt| && fmt[start - 1] == 37
    requires ReadEscape(fmt, start, PLAIN, args, ap0) == Some(e) && IsConversion(e.conv) && Convert(e, args).Some?
    modifies out.Frame()
    ensures out.Valid() && out.log == old(out.log) + Convert(e, args).value.0 && ap == Convert(e, args).value.1
    decreases Depth(fmt), 0, 2
  {
    EscapeInts(fmt, start, PLAIN, args, ap0);
    if e.conv == 101 {
      CanReenterHere(fmt, start - 1, e.at - 1);
    }
    ap := Conversion(out, e, args, Convert(e, args).value.0);
  }

  // ----- The callers -----

  /** The console printf: displays the output and answers its length. */
  method Vcprintf(console: Screen.Console, fmt: seq<uint8>, args: seq<Arg>) returns (cnt: int)
    requires console.Valid() && IsCString(fmt) && Output(fmt, args).Some?
    modifies console, console.crtBuf
    ensures console.Valid() && cnt == |Output(fmt, args).value|
    ensures console.term == Terminal.TypeAll(old(console.term), Output(fmt, args).value)
    ensures console.serial == old(console.serial) + Sink.SentAll(Output(fmt, args).value)
    ensures console.lpt == old(console.lpt) + Sink.SentAll(Output(fmt, args).value)
  {
    var out := new Sink.PutDat.ToDisplay(console);
    Vprintfmt(out, fmt, args);
    assert out.log == Output(fmt, args).value;
    cnt := out.cnt;
  }

  /** What vsnprintf leaves in memory: the output cut to n - 1 characters, and a NUL. */
  ghost predicate Truncated(was: seq<uint8>, now: seq<uint8>, buf: nat, n: nat, output: seq<int>)
    requires n >= 1 && buf + n <= |was|
  {
    var kept := if |output| < n - 1 then |output| else n - 1;
    && |now| == |was|
    && (forall k :: 0 <= k < kept ==> now[buf + k] == output[k] % 0x100)
    && now[buf + kept] == 0
    && (forall k :: 0 <= k < |now| && !(buf <= k <= buf + kept) ==> now[k] == was[k])
  }

  /** The final NUL. */
  method Terminate(b: Sink.PutDat)
    requires b.Valid() && b.target == Sink.Buffer
    modifies b.mem
    ensures Truncated(b.mem0, b.mem[..], b.start, b.ebuf - b.start + 1, b.log)
  {
    b.mem[b.buf] := 0;
  }

  /** The bounded printf into memory: answers the full length, whatever was cut off. */
  method Vsnprintf(mem: array<uint8>, buf: Option<nat>, n: int, fmt: seq<uint8>, args: seq<Arg>) returns (cnt: int)
    requires IsCString(fmt) && Output(fmt, args).Some?
    requires buf.Some? && n >= 1 ==> buf.value + n <= mem.Length
    modifies mem
    ensures buf.None? || n < 1 ==> cnt == -3 && mem[..] == old(mem[..])
    ensures buf.Some? && n >= 1 ==>
              && cnt == |Output(fmt, args).value|
              && Truncated(old(mem[..]), mem[..], buf.value, n, Output(fmt, args).value)
  {
    if buf.None? || n < 1 {
      return -Sink.E_INVAL;
    }
    var b := new Sink.PutDat.ToBuffer(mem, buf.value, buf.value + n - 1);
    Vprintfmt(b, fmt, args);
    assert b.log == Output(fmt, args).value;
    Terminate(b);
    cnt := b.cnt;
  }
}
