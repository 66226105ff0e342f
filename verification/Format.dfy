/** What a format and its arguments mean: the sequence of characters that is emitted. */
module Format {
  import opened Machine
  import opened Numbers

  // ----- Arguments -----

  /** A variadic argument: a 32-bit word, a long long, or a character pointer. */
  datatype Arg = Word(bits: uint32) | LongLong(quad: uint64) | Text(bytes: seq<uint8>) | NullText

  const QUAD_SIZE := 0x1_0000_0000_0000_0000

  type uint64 = x: int | 0 <= x < QUAD_SIZE

  predicate IsWord(args: seq<Arg>, a: nat) {
    a < |args| && args[a].Word?
  }

  predicate IsText(args: seq<Arg>, a: nat) {
    a < |args| && (args[a].NullText? || (args[a].Text? && IsCString(args[a].bytes) && |args[a].bytes| <= INT_MAX))
  }

  predicate IsInteger(args: seq<Arg>, a: nat, lflag: nat) {
    a < |args| && if lflag >= 2 then args[a].LongLong? else args[a].Word?
  }

  function Signed(w: uint32): int {
    if w <= INT_MAX then w else w - WORD_SIZE
  }

  function GetUint(arg: Arg): nat
    requires arg.Word? || arg.LongLong?
  {
    if arg.Word? then arg.bits else arg.quad
  }

  function GetInt(arg: Arg): int
    requires arg.Word? || arg.LongLong?
  {
    if arg.Word? then Signed(arg.bits)
    else if arg.quad < QUAD_SIZE / 2 then arg.quad else arg.quad - QUAD_SIZE
  }

  // ----- Escapes -----

  /** What stands between the percent sign and the conversion character. */
  datatype Field = Field(padc: uint8, width: int, precision: int, lflag: nat, alt: bool)

  /** Width and precision are ints. */
  predicate Ints(f: Field) {
    -0x8000_0000 <= f.width <= INT_MAX && -0x8000_0000 <= f.precision <= INT_MAX
  }

  const PLAIN := Field(32, -1, -1, 0, false)

  /** A number fills the width first and the precision afterwards. */
  function SetNumber(f: Field, n: int): Field {
    if f.width < 0 then f.(width := n, precision := -1) else f.(precision := n)
  }

  predicate IsDecimal(c: uint8) {
    48 <= c <= 57
  }

  /** Where the run of decimal digits from `i` ends. */
  function NumberEnd(fmt: seq<uint8>, i: nat): (j: nat)
    requires IsCString(fmt) && i < |fmt|
    ensures i <= j < |fmt| && !IsDecimal(fmt[j])
    ensures forall k :: i <= k < j ==> IsDecimal(fmt[k])
    decreases |fmt| - i
  {
    if IsDecimal(fmt[i]) then NumberEnd(fmt, i + 1) else i
  }

  /** An escape: its conversion character, its field, and the positions just past both. */
  datatype Escape = Escape(conv: uint8, field: Field, at: nat, arg: nat)

  /** Reads an escape from `i`; None when an argument is missing or ill-typed, or when the
      code's sum n + '0' does not fit an int. */
  function ReadEscape(fmt: seq<uint8>, i: nat, f: Field, args: seq<Arg>, a: nat): (e: Option<Escape>)
    requires IsCString(fmt) && i < |fmt|
    ensures e.Some? ==> i < e.value.at <= |fmt| && e.value.conv == fmt[e.value.at - 1] && a <= e.value.arg
    ensures e.Some? ==> forall k :: i <= k < e.value.at - 1 ==> fmt[k] != 37 && fmt[k] != 0
    decreases |fmt| - i
  {
    var c := fmt[i];
    if c == 45 || c == 48 then ReadEscape(fmt, i + 1, f.(padc := c), args, a)
    else if 49 <= c <= 57 then
      var j := NumberEnd(fmt, i);
      var n := Value(fmt[i..j], 10);
      if n + 48 > INT_MAX then None else ReadEscape(fmt, j, SetNumber(f, n), args, a)
    else if c == 42 then
      if IsWord(args, a) then ReadEscape(fmt, i + 1, SetNumber(f, Signed(args[a].bits)), args, a + 1) else None
    else if c == 46 then ReadEscape(fmt, i + 1, f.(width := if f.width < 0 then 0 else f.width), args, a)
    else if c == 35 then ReadEscape(fmt, i + 1, f.(alt := true), args, a)
    else if c == 108 then ReadEscape(fmt, i + 1, f.(lflag := f.lflag + 1), args, a)
    else Some(Escape(c, f, i + 1, a))
  }

  lemma {:induction false} EscapeInts(fmt: seq<uint8>, i: nat, f: Field, args: seq<Arg>, a: nat)
    requires IsCString(fmt) && i < |fmt| && Ints(f) && ReadEscape(fmt, i, f, args, a).Some?
    ensures Ints(ReadEscape(fmt, i, f, args, a).value.field)
    decreases |fmt| - i
  {
    var c := fmt[i];
    if c == 45 || c == 48 {
      EscapeInts(fmt, i + 1, f.(padc := c), args, a);
    } else if 49 <= c <= 57 {
      var j := NumberEnd(fmt, i);
      EscapeInts(fmt, j, SetNumber(f, Value(fmt[i..j], 10)), args, a);
    } else if c == 42 {
      EscapeInts(fmt, i + 1, SetNumber(f, Signed(args[a].bits)), args, a + 1);
    } else if c == 46 {
      EscapeInts(fmt, i + 1, f.(width := if f.width < 0 then 0 else f.width), args, a);
    } else if c == 35 {
      EscapeInts(fmt, i + 1, f.(alt := true), args, a);
    } else if c == 108 {
      EscapeInts(fmt, i + 1, f.(lflag := f.lflag + 1), args, a);
    }
  }

  // ----- A number after a point -----

  predicate AllZeros(fmt: seq<uint8>, i: nat, j: nat)
    requires i <= j <= |fmt|
  {
    forall k :: i <= k < j ==> fmt[k] == 48
  }

  /** A zero that does not continue a number is a flag. */
  lemma {:induction false} ZerosAreFlags(fmt: seq<uint8>, i: nat, j: nat, f: Field, args: seq<Arg>, a: nat)
    requires IsCString(fmt) && i <= j < |fmt| && AllZeros(fmt, i, j)
    ensures ReadEscape(fmt, i, f, args, a)
            == ReadEscape(fmt, j, if i < j then f.(padc := 48) else f, args, a)
    decreases j - i
  {
    if i < j {
      ZerosAreFlags(fmt, i + 1, j, f.(padc := 48), args, a);
    }
  }

  /** Past the zeros at `i`, at most to `j`. */
  function ZerosEnd(fmt: seq<uint8>, i: nat, j: nat): (z: nat)
    requires i <= j <= |fmt|
    ensures i <= z <= j && AllZeros(fmt, i, z) && (z < j ==> fmt[z] != 48)
    decreases j - i
  {
    if i < j && fmt[i] == 48 then ZerosEnd(fmt, i + 1, j) else i
  }

  lemma ValuePastZeros(fmt: seq<uint8>, i: nat, z: nat, j: nat)
    requires i <= z <= j <= |fmt| && AllZeros(fmt, i, z)
    ensures Value(fmt[i..j], 10) == Value(fmt[z..j], 10)
  {
    LeadingZeros(z - i, fmt[z..j], 10);
    assert fmt[i..j] == Rep(48, z - i) + fmt[z..j];
  }

  /** With the width given, a number that starts with a nonzero digit is the precision. */
  lemma PrecisionAt(fmt: seq<uint8>, z: nat, j: nat, f: Field, args: seq<Arg>, a: nat)
    requires IsCString(fmt) && z < j < |fmt| && j == NumberEnd(fmt, z) && fmt[z] != 48 && f.width >= 0
    requires Value(fmt[z..j], 10) + 48 <= INT_MAX
    ensures ReadEscape(fmt, z, f, args, a) == ReadEscape(fmt, j, f.(precision := Value(fmt[z..j], 10)), args, a)
  {
  }

  /** What digits do to a field whose width is given. */
  function AfterDigits(fmt: seq<uint8>, i: nat, j: nat, f: Field): Field
    requires i < j <= |fmt|
  {
    Field(
      if fmt[i] == 48 then 48 else f.padc,
      f.width,
      if AllZeros(fmt, i, j) then f.precision else Value(fmt[i..j], 10),
      f.lflag,
      f.alt)
  }

  lemma DigitsRead(fmt: seq<uint8>, i: nat, j: nat, f: Field, args: seq<Arg>, a: nat)
    requires IsCString(fmt) && i < j < |fmt| && j == NumberEnd(fmt, i) && f.width >= 0
    requires Value(fmt[i..j], 10) + 48 <= INT_MAX
    ensures ReadEscape(fmt, i, f, args, a) == ReadEscape(fmt, j, AfterDigits(fmt, i, j, f), args, a)
  {
    var z := ZerosEnd(fmt, i, j);
    ZerosAreFlags(fmt, i, z, f, args, a);
    ValuePastZeros(fmt, i, z, j);
    var g := if i < z then f.(padc := 48) else f;
    if z < j {
      PrecisionAt(fmt, z, j, g, args, a);
      assert AfterDigits(fmt, i, j, f) == g.(precision := Value(fmt[z..j], 10));
    } else {
      assert AfterDigits(fmt, i, j, f) == g;
    }
  }

  /** A point opens the width if there is none. */
  function AfterPoint(f: Field): Field {
    f.(width := if f.width < 0 then 0 else f.width)
  }

  /** Digits after a point are read as the precision exactly when they are not all zeros,
      or the precision was zero already. */
  lemma PrecisionReadIff(fmt: seq<uint8>, i: nat, f: Field, args: seq<Arg>, a: nat)
    requires IsCString(fmt) && i + 1 < |fmt| && fmt[i] == 46 && IsDecimal(fmt[i + 1])
    requires Value(fmt[i + 1..NumberEnd(fmt, i + 1)], 10) + 48 <= INT_MAX
    ensures var j := NumberEnd(fmt, i + 1);
            var g := AfterDigits(fmt, i + 1, j, AfterPoint(f));
            && ReadEscape(fmt, i, f, args, a) == ReadEscape(fmt, j, g, args, a)
            && (g.precision == Value(fmt[i + 1..j], 10) <==> !AllZeros(fmt, i + 1, j) || f.precision == 0)
  {
    var j := NumberEnd(fmt, i + 1);
    DigitsRead(fmt, i + 1, j, AfterPoint(f), args, a);
    ValuePastZeros(fmt, i + 1, ZerosEnd(fmt, i + 1, j), j);
  }

  // ----- Conversions -----

  function CString(text: string): (s: seq<uint8>)
    ensures |s| == |text| + 1
  {
    seq(|text| + 1, i requires 0 <= i <= |text| => if i < |text| then (text[i] as int) % 0x100 else 0)
  }

  /** A plain char is signed. */
  function SignedChar(b: uint8): int {
    if b < 0x80 then b else b - 0x100
  }

  function Shown(b: uint8, alt: bool): int {
    var c := SignedChar(b);
    if alt && (c < 32 || c > 126) then 63 else c
  }

  function Min(a: int, b: int): int {
    if a < b then a else b
  }

  /** How many characters of the string `s` a precision lets through. */
  function Kept(s: seq<uint8>, precision: int): nat
    requires IsCString(s)
  {
    if precision < 0 then |s| - 1 else Min(|s| - 1, precision)
  }

  /** The kept characters, padded to the width: on the right with blanks under flag '-',
      else on the left. */
  function StringField(s: seq<uint8>, f: Field): seq<int>
    requires IsCString(s)
  {
    var n := Kept(s, f.precision);
    var chars := seq(n, i requires 0 <= i < n => Shown(s[i], f.alt));
    if f.padc == 45 then chars + Rep(32, f.width - n) else Rep(f.padc, f.width - n) + chars
  }

  /** Whatever the width and precision: the kept characters, the smaller of length and precision
      in number, at one end of a field that is as wide as the wider of them and the width, and
      padding at the other. */
  lemma StringLayout(s: seq<uint8>, f: Field)
    requires IsCString(s)
    ensures var r := StringField(s, f);
            var n := if 0 <= f.precision < |s| - 1 then f.precision else |s| - 1;
            var left := if f.padc == 45 then 0 else |r| - n;
            && |r| == (if f.width > n then f.width else n)
            && (forall i :: 0 <= i < n ==>
                  r[left + i] == if f.alt && !(32 <= s[i] <= 126) then 63
                                 else if s[i] < 0x80 then s[i] as int else (s[i] as int) - 0x100)
            && (forall i :: 0 <= i < left ==> r[i] == f.padc)
            && (f.padc == 45 ==> forall i :: n <= i < |r| ==> r[i] == 32)
  {
  }

  const NULL_TEXT: seq<uint8> := CString("(null)")
  const MAXERROR := 7

  /** The texts of the error table, by positive error code. */
  function ErrorString(err: nat): Option<string> {
    match err
    case 1 => Some("unspecified error")
    case 2 => Some("bad environment")
    case 3 => Some("invalid parameter")
    case 4 => Some("out of memory")
    case 5 => Some("out of environments")
    case 6 => Some("segmentation fault")
    case _ => None
  }

  function Chars(text: string): seq<int> {
    seq(|text|, i requires 0 <= i < |text| => (text[i] as int) % 0x100)
  }

  function SignedField(n: int, f: Field): seq<int> {
    Printed(n, 10, f.width, f.padc)
  }

  function ErrorText(err: nat): seq<int> {
    match ErrorString(err)
    case Some(text) => Chars(text)
    case None => Chars("error ") + Digits(err, 10)
  }

  predicate IsConversion(c: uint8) {
    c in {99, 101, 115, 100, 117, 111, 112, 120, 37}
  }

  /** The characters of one escape and the next argument. */
  function Convert(e: Escape, args: seq<Arg>): Option<(seq<int>, nat)>
    requires IsConversion(e.conv)
  {
    var f, a := e.field, e.arg;
    match e.conv
    case 99 => if IsWord(args, a) then Some(([Signed(args[a].bits)], a + 1)) else None
    case 101 =>
      if IsWord(args, a) && Signed(args[a].bits) != -0x8000_0000
      then Some((ErrorText(Abs(Signed(args[a].bits))), a + 1)) else None
    case 115 =>
      if IsText(args, a)
      then Some((StringField(if args[a].Text? then args[a].bytes else NULL_TEXT, f), a + 1)) else None
    case 100 =>
      if IsInteger(args, a, f.lflag) then Some((SignedField(GetInt(args[a]), f), a + 1)) else None
    case 111 => Some(([88, 88, 88], a))
    case 112 =>
      if IsWord(args, a)
      then Some(([48, 120] + NumberField(args[a].bits, 16, f.width, f.padc), a + 1)) else None
    case 37 => Some(([37], a))
    case 117 =>
      if IsInteger(args, a, f.lflag)
      then Some((NumberField(GetUint(args[a]), 10, f.width, f.padc), a + 1)) else None
    case _ =>
      if IsInteger(args, a, f.lflag)
      then Some((NumberField(GetUint(args[a]), 16, f.width, f.padc), a + 1)) else None
  }

  // ----- Formats -----

  function Prepend(cs: seq<int>, rest: Option<seq<int>>): Option<seq<int>> {
    if rest.None? then None else Some(cs + rest.value)
  }

  /** Everything emitted for the format from `i` on; None when the arguments do not fit it. */
  function Emitted(fmt: seq<uint8>, i: nat, args: seq<Arg>, a: nat): Option<seq<int>>
    requires IsCString(fmt) && i < |fmt|
    decreases |fmt| - i
  {
    if fmt[i] == 0 then Some([])
    else if fmt[i] != 37 then Prepend([fmt[i]], Emitted(fmt, i + 1, args, a))
    else
      match ReadEscape(fmt, i + 1, PLAIN, args, a)
      case None => None
      case Some(e) =>
        if IsConversion(e.conv) then
          match Convert(e, args)
          case None => None
          case Some(r) => Prepend(r.0, Emitted(fmt, e.at, args, r.1))
        else
          // an unknown escape stands for itself, up to the end of the format if that cuts it off
          var end := if e.conv == 0 then e.at - 1 else e.at;
          Prepend(fmt[i..end], Emitted(fmt, end, args, e.arg))
  }

  function Output(fmt: seq<uint8>, args: seq<Arg>): Option<seq<int>>
    requires IsCString(fmt)
  {
    Emitted(fmt, 0, args, 0)
  }

  /** "%.0s" prints the whole string, as "%s" does; a precision of zero would print nothing. */
  lemma ZeroPrecisionIsIgnored(p: seq<uint8>)
    requires IsCString(p) && |p| <= INT_MAX
    ensures IsCString(CString("%.0s"))
    ensures Output(CString("%.0s"), [Text(p)]) == Some(StringField(p, PLAIN))
    ensures |StringField(p, PLAIN)| == |p| - 1 && StringField(p, PLAIN.(width := 0, precision := 0)) == []
  {
    var fmt := CString("%.0s");
    assert fmt == [37, 46, 48, 115, 0];
    WholeString(fmt, p);
  }

  lemma WholeString(fmt: seq<uint8>, p: seq<uint8>)
    requires fmt == [37, 46, 48, 115, 0] && IsCString(p) && |p| <= INT_MAX
    ensures Output(fmt, [Text(p)]) == Some(StringField(p, PLAIN))
  {
    var args, f := [Text(p)], PLAIN.(width := 0, padc := 48);
    PointZeroEscape(fmt, args);
    WholeConversion(p, f, args);
    assert Emitted(fmt, 4, args, 1) == Some([]);
    PrependToNothing(StringField(p, PLAIN));
  }

  lemma WholeConversion(p: seq<uint8>, f: Field, args: seq<Arg>)
    requires IsCString(p) && |p| <= INT_MAX && f == PLAIN.(width := 0, padc := 48) && args == [Text(p)]
    ensures Convert(Escape(115, f, 4, 0), args) == Some((StringField(p, PLAIN), 1))
  {
    assert StringField(p, f) == StringField(p, PLAIN);
  }

  lemma PrependToNothing(cs: seq<int>)
    ensures Prepend(cs, Some([])) == Some(cs)
  {
    assert cs + [] == cs;
  }

  lemma PointZeroEscape(fmt: seq<uint8>, args: seq<Arg>)
    requires fmt == [37, 46, 48, 115, 0]
    ensures ReadEscape(fmt, 1, PLAIN, args, 0) == Some(Escape(115, PLAIN.(width := 0, padc := 48), 4, 0))
  {
    assert NumberEnd(fmt, 2) == 3;
    PrecisionReadIff(fmt, 1, PLAIN, args, 0);
  }

  /** "%2d" prints -5 in three characters: the sign is outside the width. */
  lemma SignOutsideWidth()
    ensures IsCString(CString("%2d"))
    ensures Output(CString("%2d"), [Word(WORD_SIZE - 5)]) == Some([45, 32, 53])
  {
    var fmt, f := CString("%2d"), PLAIN.(width := 2);
    assert fmt == [37, 50, 100, 0];
    OneDigitWidth(fmt, 1, PLAIN, [Word(WORD_SIZE - 5)]);
    assert Digits(5, 10) == [53] && Rep(32, 1) == [32];
    assert SignedField(-5, f) == [45, 32, 53];
    LoneDecimal(fmt, Escape(100, f, 3, 0), WORD_SIZE - 5);
  }

  /** "%-2d" prints 5 behind a dash, not in front of a blank. */
  lemma DashPadsLeft()
    ensures IsCString(CString("%-2d"))
    ensures Output(CString("%-2d"), [Word(5)]) == Some([45, 53])
  {
    var fmt, f := CString("%-2d"), PLAIN.(padc := 45, width := 2);
    assert fmt == [37, 45, 50, 100, 0];
    OneDigitWidth(fmt, 2, PLAIN.(padc := 45), [Word(5)]);
    assert Digits(5, 10) == [53] && Rep(45, 1) == [45];
    assert SignedField(5, f) == [45, 53];
    LoneDecimal(fmt, Escape(100, f, 4, 0), 5);
  }

  /** A format that is one %d escape. */
  lemma LoneDecimal(fmt: seq<uint8>, e: Escape, bits: uint32)
    requires IsCString(fmt) && |fmt| > 2 && fmt[0] == 37 && e.conv == 100 && e.at == |fmt| - 1 && e.arg == 0
    requires ReadEscape(fmt, 1, PLAIN, [Word(bits)], 0) == Some(e) && e.field.lflag == 0
    ensures Output(fmt, [Word(bits)]) == Some(SignedField(Signed(bits), e.field))
  {
    assert Emitted(fmt, e.at, [Word(bits)], 1) == Some([]);
    PrependToNothing(SignedField(Signed(bits), e.field));
  }

  /** A width of one digit, then %d. */
  lemma OneDigitWidth(fmt: seq<uint8>, i: nat, f: Field, args: seq<Arg>)
    requires IsCString(fmt) && i + 2 < |fmt| && 49 <= fmt[i] <= 57 && fmt[i + 1] == 100 && f.width < 0
    ensures ReadEscape(fmt, i, f, args, 0)
            == Some(Escape(100, f.(width := fmt[i] - 48, precision := -1), i + 2, 0))
  {
    NumberRunsTo(fmt, i, i + 1);
    DigitValue(fmt[i..i + 1], fmt[i]);
    assert ReadEscape(fmt, i + 1, f.(width := fmt[i] - 48, precision := -1), args, 0)
        == Some(Escape(100, f.(width := fmt[i] - 48, precision := -1), i + 2, 0));
  }

  lemma DigitValue(cs: seq<int>, c: int)
    requires cs == [c] && 48 <= c <= 57
    ensures Value(cs, 10) == c - 48
  {
    assert cs == [] + [c];
    ValueAppend([], c, 10);
  }

  // ----- Single escapes in print -----

  /** A format that is one conversion character behind a percent sign. */
  lemma LoneEscape(fmt: seq<uint8>, args: seq<Arg>)
    requires |fmt| == 3 && fmt[0] == 37 && fmt[2] == 0 && IsConversion(fmt[1])
    requires Convert(Escape(fmt[1], PLAIN, 2, 0), args).Some?
    ensures IsCString(fmt)
    ensures Output(fmt, args) == Some(Convert(Escape(fmt[1], PLAIN, 2, 0), args).value.0)
  {
    assert ReadEscape(fmt, 1, PLAIN, args, 0) == Some(Escape(fmt[1], PLAIN, 2, 0));
    var r := Convert(Escape(fmt[1], PLAIN, 2, 0), args).value;
    assert Emitted(fmt, 2, args, r.1) == Some([]);
    PrependToNothing(r.0);
  }

  /** A code and its negation print the same. */
  lemma ErrorEscape(code: nat)
    requires 0 < code <= INT_MAX
    ensures IsCString(CString("%e"))
    ensures Output(CString("%e"), [Word(code)]) == Some(ErrorText(code))
    ensures Output(CString("%e"), [Word(WORD_SIZE - code)]) == Some(ErrorText(code))
  {
    var fmt := CString("%e");
    assert fmt == [37, 101, 0];
    LoneEscape(fmt, [Word(code)]);
    LoneEscape(fmt, [Word(WORD_SIZE - code)]);
  }

  lemma NoError()
    ensures IsCString(CString("%e")) && Output(CString("%e"), [Word(0)]) == Some(Chars("error 0"))
  {
    assert CString("%e") == [37, 101, 0];
    LoneEscape(CString("%e"), [Word(0)]);
    assert Digits(0, 10) == [48];
    assert Chars("error ") + [48] == Chars("error 0");
  }

  /** "%e" prints this text for the code and for its negation. */
  ghost predicate ErrorPrints(code: nat, text: string)
    requires 0 < code <= INT_MAX
  {
    && IsCString(CString("%e"))
    && Output(CString("%e"), [Word(code)]) == Some(Chars(text))
    && Output(CString("%e"), [Word(WORD_SIZE - code)]) == Some(Chars(text))
  }

  lemma KnownErrorPrints(code: nat, text: string)
    requires 0 < code <= INT_MAX && ErrorString(code) == Some(text)
    ensures ErrorPrints(code, text)
  {
    ErrorEscape(code);
  }

  /** What each error code prints, with either sign. */
  lemma ErrorsInPrint()
    ensures ErrorPrints(1, "unspecified error")
    ensures ErrorPrints(2, "bad environment")
    ensures ErrorPrints(3, "invalid parameter")
    ensures ErrorPrints(4, "out of memory")
    ensures ErrorPrints(5, "out of environments")
    ensures ErrorPrints(6, "segmentation fault")
  {
    KnownErrorPrints(1, "unspecified error");
    KnownErrorPrints(2, "bad environment");
    KnownErrorPrints(3, "invalid parameter");
    KnownErrorPrints(4, "out of memory");
    KnownErrorPrints(5, "out of environments");
    KnownErrorPrints(6, "segmentation fault");
  }

  /** Any other code prints its magnitude. */
  lemma UnknownErrorInPrint(code: nat)
    requires 6 < code <= INT_MAX
    ensures IsCString(CString("%e"))
    ensures Output(CString("%e"), [Word(code)]) == Output(CString("%e"), [Word(WORD_SIZE - code)])
            == Some(Chars("error ") + Digits(code, 10))
  {
    ErrorEscape(code);
  }

  /** %c prints its argument as an int, %% a percent sign, %o three times X, and %s a null
      pointer in words. */
  lemma CharactersInPrint(w: uint32)
    ensures IsCString(CString("%c")) && IsCString(CString("%%")) && IsCString(CString("%o")) && IsCString(CString("%s"))
    ensures Output(CString("%c"), [Word(w)]) == Some([Signed(w)])
    ensures Output(CString("%%"), []) == Some(Chars("%"))
    ensures Output(CString("%o"), []) == Some(Chars("XXX"))
    ensures Output(CString("%s"), [NullText]) == Some(Chars("(null)"))
  {
    CharInPrint(w);
    PercentInPrint();
    OctalInPrint();
    NullInPrint();
  }

  lemma CharInPrint(w: uint32)
    ensures IsCString(CString("%c")) && Output(CString("%c"), [Word(w)]) == Some([Signed(w)])
  {
    assert CString("%c") == [37, 99, 0];
    LoneEscape(CString("%c"), [Word(w)]);
  }

  lemma PercentInPrint()
    ensures IsCString(CString("%%")) && Output(CString("%%"), []) == Some(Chars("%"))
  {
    assert CString("%%") == [37, 37, 0] && Chars("%") == [37];
    LoneEscape(CString("%%"), []);
  }

  lemma OctalInPrint()
    ensures IsCString(CString("%o")) && Output(CString("%o"), []) == Some(Chars("XXX"))
  {
    assert CString("%o") == [37, 111, 0] && Chars("XXX") == [88, 88, 88];
    LoneEscape(CString("%o"), []);
  }

  lemma NullInPrint()
    ensures IsCString(CString("%s")) && Output(CString("%s"), [NullText]) == Some(Chars("(null)"))
  {
    assert CString("%s") == [37, 115, 0];
    LoneEscape(CString("%s"), [NullText]);
    NullReads();
  }

  lemma NullReads()
    ensures IsCString(NULL_TEXT) && StringField(NULL_TEXT, PLAIN) == Chars("(null)")
  {
    assert StringField(CString("(null)"), PLAIN) == Chars("(null)");
  }

  /** %d takes a word as signed, %u and %x as unsigned; the numbers stand without padding. */
  lemma NumbersInPrint(w: uint32)
    ensures IsCString(CString("%d")) && IsCString(CString("%u")) && IsCString(CString("%x")) && IsCString(CString("%p"))
    ensures Output(CString("%d"), [Word(w)])
            == Some(if w <= INT_MAX then Digits(w, 10) else [45] + Digits(WORD_SIZE - w, 10))
    ensures Output(CString("%u"), [Word(w)]) == Some(Digits(w, 10))
    ensures Output(CString("%x"), [Word(w)]) == Some(Digits(w, 16))
    ensures Output(CString("%p"), [Word(w)]) == Some([48, 120] + Digits(w, 16))
  {
    SignedInPrint(w);
    UnsignedInPrint(w);
    HexInPrint(w);
  }

  lemma SignedInPrint(w: uint32)
    ensures IsCString(CString("%d"))
    ensures Output(CString("%d"), [Word(w)])
            == Some(if w <= INT_MAX then Digits(w, 10) else [45] + Digits(WORD_SIZE - w, 10))
  {
    assert CString("%d") == [37, 100, 0];
    LoneEscape(CString("%d"), [Word(w)]);
    SignedUnpadded(Signed(w));
  }

  lemma UnsignedInPrint(w: uint32)
    ensures IsCString(CString("%u")) && Output(CString("%u"), [Word(w)]) == Some(Digits(w, 10))
  {
    assert CString("%u") == [37, 117, 0];
    LoneEscape(CString("%u"), [Word(w)]);
    Unpadded(w, 10);
  }

  lemma HexInPrint(w: uint32)
    ensures IsCString(CString("%x")) && Output(CString("%x"), [Word(w)]) == Some(Digits(w, 16))
    ensures IsCString(CString("%p")) && Output(CString("%p"), [Word(w)]) == Some([48, 120] + Digits(w, 16))
  {
    assert CString("%x") == [37, 120, 0] && CString("%p") == [37, 112, 0];
    LoneEscape(CString("%x"), [Word(w)]);
    LoneEscape(CString("%p"), [Word(w)]);
    Unpadded(w, 16);
  }

  lemma Unpadded(n: nat, base: nat)
    requires 2 <= base <= 16
    ensures NumberField(n, base, -1, 32) == Digits(n, base)
  {
    assert Rep(32, -1 - |Digits(n, base)|) == [];
  }

  /** Two l's take a long long, one l or none a word. */
  lemma LongInPrint(q: uint64, w: uint32)
    ensures IsCString(CString("%lld")) && IsCString(CString("%ld"))
    ensures Output(CString("%lld"), [LongLong(q)])
            == Some(if q < QUAD_SIZE / 2 then Digits(q, 10) else [45] + Digits(QUAD_SIZE - q, 10))
    ensures Output(CString("%ld"), [Word(w)])
            == Some(if w <= INT_MAX then Digits(w, 10) else [45] + Digits(WORD_SIZE - w, 10))
  {
    LongRead(CString("%lld"), CString("%ld"), q, w);
    SignedUnpadded(GetInt(LongLong(q)));
    SignedUnpadded(Signed(w));
  }

  lemma SignedUnpadded(n: int)
    ensures Printed(n, 10, -1, 32) == if n < 0 then [45] + Digits(-n, 10) else Digits(n, 10)
  {
    Unpadded(Abs(n), 10);
  }

  lemma LongRead(two: seq<uint8>, one: seq<uint8>, q: uint64, w: uint32)
    requires two == CString("%lld") && one == CString("%ld")
    ensures IsCString(two) && IsCString(one)
    ensures Output(two, [LongLong(q)]) == Some(Printed(GetInt(LongLong(q)), 10, -1, 32))
    ensures Output(one, [Word(w)]) == Some(Printed(Signed(w), 10, -1, 32))
  {
    assert two == [37, 108, 108, 100, 0] && one == [37, 108, 100, 0];
    TwoLongs(two, q);
    OneLong(one, w);
  }

  lemma TwoLongs(fmt: seq<uint8>, q: uint64)
    requires fmt == [37, 108, 108, 100, 0]
    ensures IsCString(fmt) && Output(fmt, [LongLong(q)]) == Some(Printed(GetInt(LongLong(q)), 10, -1, 32))
  {
    var args := [LongLong(q)];
    var e := Escape(100, PLAIN.(lflag := 2), 4, 0);
    assert ReadEscape(fmt, 3, PLAIN.(lflag := 2), args, 0) == Some(e);
    assert ReadEscape(fmt, 1, PLAIN, args, 0) == Some(e);
    assert Emitted(fmt, 4, args, 1) == Some([]);
    PrependToNothing(SignedField(GetInt(args[0]), e.field));
  }

  lemma OneLong(fmt: seq<uint8>, w: uint32)
    requires fmt == [37, 108, 100, 0]
    ensures IsCString(fmt) && Output(fmt, [Word(w)]) == Some(Printed(Signed(w), 10, -1, 32))
  {
    var args := [Word(w)];
    var e := Escape(100, PLAIN.(lflag := 1), 3, 0);
    assert ReadEscape(fmt, 1, PLAIN, args, 0) == Some(e);
    assert Emitted(fmt, 3, args, 1) == Some([]);
    PrependToNothing(SignedField(Signed(w), e.field));
  }

  /** A width taken from the arguments is the width written out: "%*d" with `width` first prints
      what "%<width>d" prints, for every positive width. */
  lemma StarIsWidth(width: nat, w: uint32)
    requires 0 < width && width + 48 <= INT_MAX
    ensures var written, star := [37] + Digits(width, 10) + [100, 0], CString("%*d");
            && (forall i :: 0 <= i < |written| ==> 0 <= written[i] <= 0xFF)
            && IsCString(written) && IsCString(star)
            && Output(written, [Word(w)]) == Output(star, [Word(width), Word(w)])
            && Output(star, [Word(width), Word(w)]) == Some(Printed(Signed(w), 10, width, 32))
  {
    WidthWritten(width, w);
    WidthStarred(width, w);
  }

  lemma WidthStarred(width: nat, w: uint32)
    requires 0 < width <= INT_MAX
    ensures IsCString(CString("%*d"))
    ensures Output(CString("%*d"), [Word(width), Word(w)]) == Some(Printed(Signed(w), 10, width, 32))
  {
    var fmt, args := CString("%*d"), [Word(width), Word(w)];
    assert fmt == [37, 42, 100, 0];
    var e := Escape(100, PLAIN.(width := width), 3, 1);
    assert ReadEscape(fmt, 2, PLAIN.(width := width), args, 1) == Some(e);
    assert ReadEscape(fmt, 1, PLAIN, args, 0) == Some(e);
    assert Emitted(fmt, 3, args, 2) == Some([]);
    PrependToNothing(SignedField(Signed(w), e.field));
  }

  lemma WidthWritten(width: nat, w: uint32)
    requires 0 < width && width + 48 <= INT_MAX
    ensures var fmt := [37] + Digits(width, 10) + [100, 0];
            && (forall i :: 0 <= i < |fmt| ==> 0 <= fmt[i] <= 0xFF)
            && IsCString(fmt) && Output(fmt, [Word(w)]) == Some(Printed(Signed(w), 10, width, 32))
  {
    var ds := Digits(width, 10);
    DigitsAreDigits(width, 10);
    DigitsValue(width, 10);
    NoLeadingZero(width, 10);
    WrittenRead([37] + ds + [100, 0], ds, w);
  }

  lemma WrittenRead(fmt: seq<uint8>, ds: seq<int>, w: uint32)
    requires fmt == [37] + ds + [100, 0] && |ds| > 0 && ds[0] != 48
    requires (forall i :: 0 <= i < |ds| ==> 48 <= ds[i] <= 57) && Value(ds, 10) + 48 <= INT_MAX
    ensures IsCString(fmt) && Output(fmt, [Word(w)]) == Some(Printed(Signed(w), 10, Value(ds, 10), 32))
  {
    WrittenDigits(fmt, ds);
    var n, f := |ds|, PLAIN.(width := Value(ds, 10));
    WidthAt(fmt, 1, n + 1, ds, [Word(w)]);
    assert fmt[0] == 37 && fmt[n + 1] == 100 && fmt[n + 2] == 0;
    DecimalAtEnd(fmt, n + 1, f, w);
  }

  lemma WrittenDigits(fmt: seq<uint8>, ds: seq<int>)
    requires fmt == [37] + ds + [100, 0] && |ds| > 0 && forall i :: 0 <= i < |ds| ==> 48 <= ds[i] <= 57
    ensures IsCString(fmt) && fmt[1..|ds| + 1] == ds && NumberEnd(fmt, 1) == |ds| + 1
  {
    assert forall k :: 0 < k <= |ds| ==> fmt[k] == ds[k - 1];
    NumberRunsTo(fmt, 1, |ds| + 1);
  }

  lemma WidthAt(fmt: seq<uint8>, i: nat, j: nat, ds: seq<int>, args: seq<Arg>)
    requires IsCString(fmt) && i < j < |fmt| && j == NumberEnd(fmt, i) && fmt[i] != 48
    requires fmt[i..j] == ds && Value(ds, 10) + 48 <= INT_MAX
    ensures ReadEscape(fmt, i, PLAIN, args, 0) == ReadEscape(fmt, j, PLAIN.(width := Value(ds, 10)), args, 0)
  {
  }

  /** A format whose one escape ends in a d just before the NUL. */
  lemma DecimalAtEnd(fmt: seq<uint8>, j: nat, f: Field, w: uint32)
    requires IsCString(fmt) && 1 <= j && j + 2 == |fmt| && fmt[0] == 37 && fmt[j] == 100 && f.lflag == 0
    requires ReadEscape(fmt, 1, PLAIN, [Word(w)], 0) == ReadEscape(fmt, j, f, [Word(w)], 0)
    ensures Output(fmt, [Word(w)]) == Some(SignedField(Signed(w), f))
  {
    LoneDecimal(fmt, Escape(100, f, j + 1, 0), w);
  }

  lemma {:induction false} NumberRunsTo(fmt: seq<uint8>, i: nat, j: nat)
    requires IsCString(fmt) && i <= j < |fmt| && !IsDecimal(fmt[j]) && forall k :: i <= k < j ==> IsDecimal(fmt[k])
    ensures NumberEnd(fmt, i) == j
    decreases j - i
  {
    if i < j {
      NumberRunsTo(fmt, i + 1, j);
    }
  }

  /** Flag '#' shows what is not printable ASCII as question marks. */
  lemma AlternateInPrint(p: seq<uint8>)
    requires IsCString(p) && |p| <= INT_MAX
    ensures IsCString(CString("%#s")) && Output(CString("%#s"), [Text(p)]).Some?
    ensures var out := Output(CString("%#s"), [Text(p)]).value;
            |out| == |p| - 1 && forall i :: 0 <= i < |out| ==> out[i] == if 32 <= p[i] <= 126 then p[i] as int else 63
  {
    var fmt, args, f := CString("%#s"), [Text(p)], PLAIN.(alt := true);
    assert fmt == [37, 35, 115, 0];
    assert ReadEscape(fmt, 1, PLAIN, args, 0) == Some(Escape(115, f, 3, 0));
    assert Emitted(fmt, 3, args, 1) == Some([]);
    PrependToNothing(StringField(p, f));
    StringLayout(p, f);
  }
}
