/** Formats put together from literal text and the escapes that the monitor uses. */
module Messages {
  import opened Machine
  import opened Numbers
  import opened Format
  import Printfmt
  import Screen
  import Terminal

  /** A piece of a format: text that stands for itself, or one of %s, %d and %08x. */
  datatype Piece = Literal(text: string) | String | Decimal | Hex8

  function Bytes(text: string): (s: seq<uint8>)
    ensures |s| == |text|
  {
    seq(|text|, i requires 0 <= i < |text| => (text[i] as int) % 0x100)
  }

  function Source(p: Piece): seq<uint8> {
    match p
    case Literal(text) => Bytes(text)
    case String => [37, 115]
    case Decimal => [37, 100]
    case Hex8 => [37, 48, 56, 120]
  }

  function Fmt(ps: seq<Piece>): (s: seq<uint8>)
    ensures |s| > 0 && s[|s| - 1] == 0
  {
    if ps == [] then [0] else Source(ps[0]) + Fmt(ps[1..])
  }

  /** The position of the next argument after a piece. */
  function After(p: Piece, a: nat): nat {
    if p.Literal? then a else a + 1
  }

  /** Printable ASCII and newlines, without percent signs. */
  predicate IsPlain(text: string) {
    forall i :: 0 <= i < |text| ==> text[i] == '\n' || (' ' <= text[i] <= '~' && text[i] != '%')
  }

  /** An escape has an argument of its type; literal text is plain. */
  predicate Fits(p: Piece, args: seq<Arg>, a: nat) {
    match p
    case Literal(text) => IsPlain(text)
    case String => IsText(args, a) && args[a].Text?
    case Decimal => IsWord(args, a)
    case Hex8 => IsWord(args, a)
  }

  predicate Matches(ps: seq<Piece>, args: seq<Arg>, a: nat) {
    ps == [] || (Fits(ps[0], args, a) && Matches(ps[1..], args, After(ps[0], a)))
  }

  /** What a piece prints. */
  function PieceText(p: Piece, args: seq<Arg>, a: nat): seq<int>
    requires Fits(p, args, a)
  {
    match p
    case Literal(text) => Chars(text)
    case String => StringField(args[a].bytes, PLAIN)
    case Decimal => SignedField(Signed(args[a].bits), PLAIN)
    case Hex8 => NumberField(args[a].bits, 16, 8, 48)
  }

  function TextOf(ps: seq<Piece>, args: seq<Arg>, a: nat): seq<int>
    requires Matches(ps, args, a)
  {
    if ps == [] then [] else PieceText(ps[0], args, a) + TextOf(ps[1..], args, After(ps[0], a))
  }

  lemma {:induction false} FmtIsCString(ps: seq<Piece>, args: seq<Arg>, a: nat)
    requires Matches(ps, args, a)
    ensures IsCString(Fmt(ps))
  {
    if ps != [] {
      FmtIsCString(ps[1..], args, After(ps[0], a));
      SourceThenString(Source(ps[0]), Fmt(ps[1..]));
    }
  }

  lemma SourceThenString(a: seq<uint8>, b: seq<uint8>)
    requires IsCString(b) && forall i :: 0 <= i < |a| ==> a[i] != 0
    ensures IsCString(a + b)
  {
  }

  lemma LiteralEmitted(fmt: seq<uint8>, i: nat, text: string, args: seq<Arg>, a: nat)
    requires IsCString(fmt) && i + |text| < |fmt| && fmt[i..i + |text|] == Bytes(text)
    requires Fits(Literal(text), args, a)
    ensures Emitted(fmt, i, args, a) == Prepend(Chars(text), Emitted(fmt, i + |text|, args, a))
  {
    assert forall k :: 0 <= k < |text| ==> fmt[i + k] == Bytes(text)[k];
    assert fmt[i..i + |text|] == Chars(text);
    Printfmt.EmittedRun(fmt, i, i + |text|, args, a);
  }

  lemma StringEmitted(fmt: seq<uint8>, i: nat, args: seq<Arg>, a: nat)
    requires IsCString(fmt) && i + 2 < |fmt| && fmt[i] == 37 && fmt[i + 1] == 115
    requires IsText(args, a) && args[a].Text?
    ensures Emitted(fmt, i, args, a) == Prepend(StringField(args[a].bytes, PLAIN), Emitted(fmt, i + 2, args, a + 1))
  {
    assert ReadEscape(fmt, i + 1, PLAIN, args, a) == Some(Escape(115, PLAIN, i + 2, a));
  }

  lemma DecimalEmitted(fmt: seq<uint8>, i: nat, args: seq<Arg>, a: nat)
    requires IsCString(fmt) && i + 2 < |fmt| && fmt[i] == 37 && fmt[i + 1] == 100
    requires IsWord(args, a)
    ensures Emitted(fmt, i, args, a)
            == Prepend(SignedField(Signed(args[a].bits), PLAIN), Emitted(fmt, i + 2, args, a + 1))
  {
    assert ReadEscape(fmt, i + 1, PLAIN, args, a) == Some(Escape(100, PLAIN, i + 2, a));
  }

  lemma Hex8Emitted(fmt: seq<uint8>, i: nat, args: seq<Arg>, a: nat)
    requires IsCString(fmt) && i + 4 < |fmt|
    requires fmt[i] == 37 && fmt[i + 1] == 48 && fmt[i + 2] == 56 && fmt[i + 3] == 120
    requires IsWord(args, a)
    ensures Emitted(fmt, i, args, a)
            == Prepend(NumberField(args[a].bits, 16, 8, 48), Emitted(fmt, i + 4, args, a + 1))
  {
    Hex8Read(fmt, i, args, a);
  }

  lemma Hex8Read(fmt: seq<uint8>, i: nat, args: seq<Arg>, a: nat)
    requires IsCString(fmt) && i + 4 < |fmt| && fmt[i + 1] == 48 && fmt[i + 2] == 56 && fmt[i + 3] == 120
    ensures ReadEscape(fmt, i + 1, PLAIN, args, a) == Some(Escape(120, PLAIN.(padc := 48, width := 8), i + 4, a))
  {
    var f := PLAIN.(padc := 48);
    assert NumberEnd(fmt, i + 2) == i + 3;
    ValueAppend([], 56, 10);
    assert fmt[i + 2..i + 3] == [] + [56];
    assert ReadEscape(fmt, i + 3, f.(width := 8), args, a) == Some(Escape(120, f.(width := 8), i + 4, a));
  }

  /** A piece at `i` prints its text, and the format goes on behind it. */
  lemma PieceEmitted(fmt: seq<uint8>, i: nat, p: Piece, args: seq<Arg>, a: nat)
    requires IsCString(fmt) && i + |Source(p)| < |fmt| && fmt[i..i + |Source(p)|] == Source(p) && Fits(p, args, a)
    ensures Emitted(fmt, i, args, a)
            == Prepend(PieceText(p, args, a), Emitted(fmt, i + |Source(p)|, args, After(p, a)))
  {
    match p
    case Literal(text) =>
      LiteralEmitted(fmt, i, text, args, a);
    case String =>
      EscapeBytes(fmt, i, p);
      StringEmitted(fmt, i, args, a);
    case Decimal =>
      EscapeBytes(fmt, i, p);
      DecimalEmitted(fmt, i, args, a);
    case Hex8 =>
      EscapeBytes(fmt, i, p);
      Hex8Emitted(fmt, i, args, a);
  }

  lemma EscapeBytes(fmt: seq<uint8>, i: nat, p: Piece)
    requires !p.Literal? && i + |Source(p)| < |fmt| && fmt[i..i + |Source(p)|] == Source(p)
    ensures fmt[i] == 37 && fmt[i + |Source(p)| - 1] == (match p case String => 115 case Decimal => 100 case _ => 120)
    ensures p.Hex8? ==> fmt[i + 1] == 48 && fmt[i + 2] == 56
  {
    var source := fmt[i..i + |Source(p)|];
    assert fmt[i] == source[0] && fmt[i + 1] == source[1];
    assert p.Hex8? ==> fmt[i + 2] == source[2] && fmt[i + 3] == source[3];
  }

  /** From the position of a piece on, its format emits what it and the later ones print. */
  lemma {:induction false} PiecesEmitted(fmt: seq<uint8>, i: nat, ps: seq<Piece>, args: seq<Arg>, a: nat)
    requires IsCString(fmt) && i < |fmt| && fmt[i..] == Fmt(ps) && Matches(ps, args, a)
    ensures Emitted(fmt, i, args, a) == Some(TextOf(ps, args, a))
    decreases |ps|
  {
    if ps == [] {
      NothingLeft(fmt, i, args, a);
    } else {
      var j := NextPiece(fmt, i, ps);
      PiecesEmitted(fmt, j, ps[1..], args, After(ps[0], a));
      PiecesStep(fmt, i, j, ps, args, a);
    }
  }

  lemma NothingLeft(fmt: seq<uint8>, i: nat, args: seq<Arg>, a: nat)
    requires IsCString(fmt) && i < |fmt| && fmt[i..] == [0]
    ensures Emitted(fmt, i, args, a) == Some([])
  {
    assert fmt[i] == fmt[i..][0];
  }

  lemma NextPiece(fmt: seq<uint8>, i: nat, ps: seq<Piece>) returns (j: nat)
    requires i < |fmt| && ps != [] && fmt[i..] == Fmt(ps)
    ensures j == i + |Source(ps[0])| < |fmt| && fmt[i..j] == Source(ps[0]) && fmt[j..] == Fmt(ps[1..])
  {
    var head, rest := Source(ps[0]), Fmt(ps[1..]);
    assert Fmt(ps) == head + rest;
    j := SkipSource(fmt, i, head, rest);
  }

  lemma PiecesStep(fmt: seq<uint8>, i: nat, j: nat, ps: seq<Piece>, args: seq<Arg>, a: nat)
    requires IsCString(fmt) && ps != [] && Matches(ps, args, a)
    requires j == i + |Source(ps[0])| < |fmt| && fmt[i..j] == Source(ps[0])
    requires Emitted(fmt, j, args, After(ps[0], a)) == Some(TextOf(ps[1..], args, After(ps[0], a)))
    ensures Emitted(fmt, i, args, a) == Some(TextOf(ps, args, a))
  {
    PieceThenRest(fmt, i, j, ps[0], args, a, TextOf(ps[1..], args, After(ps[0], a)));
    TextStep(ps, args, a);
  }

  lemma PieceThenRest(fmt: seq<uint8>, i: nat, j: nat, p: Piece, args: seq<Arg>, a: nat, rest: seq<int>)
    requires IsCString(fmt) && Fits(p, args, a) && j == i + |Source(p)| < |fmt| && fmt[i..j] == Source(p)
    requires Emitted(fmt, j, args, After(p, a)) == Some(rest)
    ensures Emitted(fmt, i, args, a) == Some(PieceText(p, args, a) + rest)
  {
    PieceEmitted(fmt, i, p, args, a);
  }

  lemma TextStep(ps: seq<Piece>, args: seq<Arg>, a: nat)
    requires ps != [] && Matches(ps, args, a)
    ensures TextOf(ps, args, a) == PieceText(ps[0], args, a) + TextOf(ps[1..], args, After(ps[0], a))
  {
  }

  lemma SkipSource(fmt: seq<uint8>, i: nat, head: seq<uint8>, rest: seq<uint8>) returns (j: nat)
    requires i < |fmt| && fmt[i..] == head + rest && |rest| > 0
    ensures j == i + |head| < |fmt| && fmt[i..j] == head && fmt[j..] == rest
  {
    j := i + |head|;
    assert fmt[i..][..|head|] == head;
    assert fmt[i..][|head|..] == rest;
  }

  /** A format made of pieces prints what they print. */
  lemma MessageOutput(ps: seq<Piece>, args: seq<Arg>)
    requires Matches(ps, args, 0)
    ensures IsCString(Fmt(ps)) && Output(Fmt(ps), args) == Some(TextOf(ps, args, 0))
  {
    FmtIsCString(ps, args, 0);
    assert Fmt(ps)[0..] == Fmt(ps);
    PiecesEmitted(Fmt(ps), 0, ps, args, 0);
  }

  // ----- Formats as text -----

  function Escaped(p: Piece): string {
    match p
    case Literal(text) => text
    case String => "%s"
    case Decimal => "%d"
    case Hex8 => "%08x"
  }

  /** The format as one writes it. */
  function FormatText(ps: seq<Piece>): string {
    if ps == [] then "" else Escaped(ps[0]) + FormatText(ps[1..])
  }

  lemma SourceIsText(p: Piece)
    ensures Source(p) == Bytes(Escaped(p))
  {
  }

  lemma CStringAppend(a: string, b: string)
    ensures CString(a + b) == Bytes(a) + CString(b)
  {
  }

  lemma {:induction false} FmtIsText(ps: seq<Piece>)
    ensures Fmt(ps) == CString(FormatText(ps))
  {
    if ps != [] {
      SourceIsText(ps[0]);
      FmtIsText(ps[1..]);
      CStringAppend(Escaped(ps[0]), FormatText(ps[1..]));
    }
  }

  /** The format and the arguments of a message, piece by piece. */
  lemma Unfold(ps: seq<Piece>, args: seq<Arg>, a: nat)
    requires ps != []
    ensures FormatText(ps) == Escaped(ps[0]) + FormatText(ps[1..])
    ensures Matches(ps, args, a) <==> Fits(ps[0], args, a) && Matches(ps[1..], args, After(ps[0], a))
  {
  }

  // ----- Saying something -----

  /** A format of pieces with its arguments. */
  datatype Message = Message(pieces: seq<Piece>, args: seq<Arg>) {
    predicate Valid() {
      Matches(pieces, args, 0)
    }

    function Text(): seq<int> {
      if Valid() then TextOf(pieces, args, 0) else []
    }
  }

  /** What a run of messages prints. */
  function Speech(ms: seq<Message>): seq<int> {
    if ms == [] then [] else Speech(ms[..|ms| - 1]) + ms[|ms| - 1].Text()
  }

  lemma SpeechAppend(t: Terminal.Term, said: seq<Message>, m: Message)
    requires t.Valid()
    ensures Terminal.TypeAll(t, Speech(said + [m])) == Terminal.TypeAll(Terminal.TypeAll(t, Speech(said)), m.Text())
  {
    assert (said + [m])[..|said|] == said;
    Terminal.TypeAllAppend(t, Speech(said), m.Text());
  }

  /** Prints a message on the console, given the format it is made of. */
  method Say(console: Screen.Console, fmt: seq<uint8>, args: seq<Arg>, ghost t: Terminal.Term, ghost said: seq<Message>,
             ghost m: Message)
    requires console.Valid() && t.Valid() && console.term == Terminal.TypeAll(t, Speech(said))
    requires m.Valid() && fmt == Fmt(m.pieces) && args == m.args
    modifies console, console.crtBuf
    ensures console.Valid() && console.term == Terminal.TypeAll(t, Speech(said + [m]))
  {
    MessageOutput(m.pieces, m.args);
    SpeechAppend(t, said, m);
    var _ := Printfmt.Vcprintf(console, fmt, args);
  }

  // ----- No backspaces -----

  ghost predicate NoBackspace(cs: seq<int>) {
    forall i :: 0 <= i < |cs| ==> Terminal.Low(cs[i]) != 8
  }

  /** Only the strings among the arguments could bring in a backspace. */
  ghost predicate PlainArgs(args: seq<Arg>) {
    forall a :: 0 <= a < |args| && args[a].Text? ==> forall i :: 0 <= i < |args[a].bytes| ==> args[a].bytes[i] != 8
  }

  lemma StringHasNoBackspace(p: seq<uint8>)
    requires IsCString(p) && forall i :: 0 <= i < |p| ==> p[i] != 8
    ensures NoBackspace(StringField(p, PLAIN))
  {
    forall i | 0 <= i < |p| ensures Terminal.Low(SignedChar(p[i])) != 8 {
      assert Terminal.Low(SignedChar(p[i])) == p[i];
    }
  }

  lemma NumeralHasNoBackspace(cs: seq<int>)
    requires IsLowerNumeral(cs)
    ensures NoBackspace(cs)
  {
  }

  lemma NoBackspaceAppend(cs: seq<int>, ds: seq<int>)
    requires NoBackspace(cs) && NoBackspace(ds)
    ensures NoBackspace(cs + ds)
  {
  }

  lemma NumberHasNoBackspace(n: int, base: nat, width: int, padc: int)
    requires 2 <= base <= 16 && padc in {32, 48}
    ensures NoBackspace(Printed(n, base, width, padc))
  {
    var ds := Digits(Abs(n), base);
    DigitsAreDigits(Abs(n), base);
    NumeralHasNoBackspace(ds);
    NoBackspaceAppend(Rep(padc, width - |ds|), ds);
    NoBackspaceAppend(if n < 0 then [45] else [], NumberField(Abs(n), base, width, padc));
  }

  lemma PieceHasNoBackspace(p: Piece, args: seq<Arg>, a: nat)
    requires Fits(p, args, a) && PlainArgs(args)
    ensures NoBackspace(PieceText(p, args, a))
  {
    match p
    case Literal(text) => assert IsPlain(text);
    case String => StringHasNoBackspace(args[a].bytes);
    case Decimal => NumberHasNoBackspace(Signed(args[a].bits), 10, -1, 32);
    case Hex8 =>
      NumberHasNoBackspace(args[a].bits, 16, 8, 48);
      assert Printed(args[a].bits, 16, 8, 48) == NumberField(args[a].bits, 16, 8, 48);
  }

  lemma {:induction false} TextHasNoBackspace(ps: seq<Piece>, args: seq<Arg>, a: nat)
    requires Matches(ps, args, a) && PlainArgs(args)
    ensures NoBackspace(TextOf(ps, args, a))
  {
    if ps != [] {
      PieceHasNoBackspace(ps[0], args, a);
      TextHasNoBackspace(ps[1..], args, After(ps[0], a));
    }
  }

  lemma {:induction false} SpeechHasNoBackspace(ms: seq<Message>)
    requires forall i :: 0 <= i < |ms| ==> PlainArgs(ms[i].args)
    ensures NoBackspace(Speech(ms))
  {
    if ms != [] {
      var m := ms[|ms| - 1];
      SpeechHasNoBackspace(ms[..|ms| - 1]);
      if m.Valid() {
        TextHasNoBackspace(m.pieces, m.args, 0);
      }
    }
  }
}
