/** What the monitor prints: its welcome, its complaints and the output of its two commands. */
module Commands {
  import opened Machine
  import opened Format
  import opened Numbers
  import opened Messages
  import Screen
  import Terminal

  const HELP: seq<uint8> := [104, 101, 108, 112, 0]
  const KERNINFO: seq<uint8> := [107, 101, 114, 110, 105, 110, 102, 111, 0]

  /** The command table: names and descriptions. */
  const COMMANDS: seq<seq<uint8>> := [HELP, KERNINFO]
  const DESCRIPTIONS: seq<seq<uint8>> :=
    [CString("Display this list of commands"), CString("Display information about the kernel")]

  const KERNBASE: uint32 := 0xF000_0000

  /** The addresses that the linker gives the kernel's special symbols. */
  datatype Symbols = Symbols(start: uint32, entry: uint32, etext: uint32, edata: uint32, end: uint32)

  function Phys(virt: uint32): uint32 {
    (virt - KERNBASE) % WORD_SIZE
  }

  /** The size in kilobytes, rounded up, from the int that a pointer difference is. */
  function Footprint(s: Symbols): uint32 {
    var up := ((s.end - s.entry) % WORD_SIZE + 1023) % WORD_SIZE;
    Signed(up - up % 1024) / 1024 % WORD_SIZE
  }

  // ----- The messages -----

  const WELCOME := Message([Literal("Welcome to the JOS kernel monitor!\n")], [])
  const HINT := Message([Literal("Type 'help' for a list of commands.\n")], [])
  const TOO_MANY := Message([Literal("Too many arguments (max "), Decimal, Literal(")\n")], [Word(16)])

  function UnknownCommand(word: seq<uint8>): Message {
    Message([Literal("Unknown command '"), String, Literal("'\n")], [Text(word + [0])])
  }

  function HelpLine(i: nat): Message
    requires i < 2
  {
    Message([String, Literal(" - "), String, Literal("\n")], [Text(COMMANDS[i]), Text(DESCRIPTIONS[i])])
  }

  const SYMBOLS_HEAD := Message([Literal("Special kernel symbols:\n")], [])

  function StartLine(s: Symbols): Message {
    Message([Literal("  _start                  "), Hex8, Literal(" (phys)\n")], [Word(s.start)])
  }

  function SymbolLine(head: string, virt: uint32): Message {
    Message([Literal(head), Hex8, Literal(" (virt)  "), Hex8, Literal(" (phys)\n")], [Word(virt), Word(Phys(virt))])
  }

  function FootprintLine(s: Symbols): Message {
    Message([Literal("Kernel executable memory footprint: "), Decimal, Literal("KB\n")], [Word(Footprint(s))])
  }

  /** The first `n` lines of `help`. */
  function HelpReply(n: nat): seq<Message>
    requires n <= 2
  {
    if n == 0 then [] else HelpReply(n - 1) + [HelpLine(n - 1)]
  }

  function KerninfoReply(s: Symbols): seq<Message> {
    [SYMBOLS_HEAD] + [StartLine(s)]
    + [SymbolLine("  entry  ", s.entry)] + [SymbolLine("  etext  ", s.etext)]
    + [SymbolLine("  edata  ", s.edata)] + [SymbolLine("  end    ", s.end)]
    + [FootprintLine(s)]
  }

  // ----- Their formats, as the source writes them -----

  /** A format without escapes. */
  lemma LoneLiteral(text: string)
    requires IsPlain(text)
    ensures Matches([Literal(text)], [], 0) && Fmt([Literal(text)]) == CString(text)
  {
    var ps := [Literal(text)];
    assert ps[1..] == [] && FormatText([]) == "" && FormatText(ps) == text;
    FmtIsText(ps);
  }

  /** Text, an escape, text. */
  lemma Around(a: string, p: Piece, b: string, args: seq<Arg>)
    requires IsPlain(a) && IsPlain(b) && !p.Literal? && Fits(p, args, 0)
    ensures Matches([Literal(a), p, Literal(b)], args, 0)
    ensures Fmt([Literal(a), p, Literal(b)]) == CString(a + Escaped(p) + b)
  {
    var ps := [Literal(a), p, Literal(b)];
    var qs, rs := [p, Literal(b)], [Literal(b)];
    assert ps[1..] == qs && qs[1..] == rs && rs[1..] == [];
    Unfold(ps, args, 0);
    Unfold(qs, args, 0);
    Unfold(rs, args, 1);
    assert FormatText(ps) == a + Escaped(p) + b;
    FmtIsText(ps);
  }

  /** Text between and around two escapes. */
  lemma AroundTwo(a: string, p: Piece, b: string, q: Piece, c: string, args: seq<Arg>)
    requires IsPlain(a) && IsPlain(b) && IsPlain(c)
    requires !p.Literal? && Fits(p, args, 0) && !q.Literal? && Fits(q, args, 1)
    ensures Matches([Literal(a), p, Literal(b), q, Literal(c)], args, 0)
    ensures Fmt([Literal(a), p, Literal(b), q, Literal(c)]) == CString(a + Escaped(p) + b + Escaped(q) + c)
  {
    var ps := [Literal(a), p, Literal(b), q, Literal(c)];
    var qs, rs := [p, Literal(b), q, Literal(c)], [Literal(b), q, Literal(c)];
    assert ps[1..] == qs && qs[1..] == rs;
    Unfold(ps, args, 0);
    Unfold(qs, args, 0);
    FollowedBy(b, q, c, args);
    assert FormatText(ps) == a + Escaped(p) + b + Escaped(q) + c;
    FmtIsText(ps);
  }

  lemma FollowedBy(b: string, q: Piece, c: string, args: seq<Arg>)
    requires IsPlain(b) && IsPlain(c) && !q.Literal? && Fits(q, args, 1)
    ensures Matches([Literal(b), q, Literal(c)], args, 1)
    ensures FormatText([Literal(b), q, Literal(c)]) == b + Escaped(q) + c
  {
    var ps := [Literal(b), q, Literal(c)];
    var qs, rs := [q, Literal(c)], [Literal(c)];
    assert ps[1..] == qs && qs[1..] == rs && rs[1..] == [];
    Unfold(ps, args, 1);
    Unfold(qs, args, 1);
    Unfold(rs, args, 2);
  }

  lemma TooManyFormat()
    ensures TOO_MANY.Valid() && Fmt(TOO_MANY.pieces) == CString("Too many arguments (max %d)\n")
  {
    Around("Too many arguments (max ", Decimal, ")\n", TOO_MANY.args);
    assert "Too many arguments (max " + "%d" + ")\n" == "Too many arguments (max %d)\n";
  }

  lemma UnknownFormat(word: seq<uint8>)
    requires IsCString(word + [0]) && |word| < INT_MAX
    ensures UnknownCommand(word).Valid()
    ensures Fmt(UnknownCommand(word).pieces) == CString("Unknown command '%s'\n")
  {
    Around("Unknown command '", String, "'\n", [Text(word + [0])]);
    assert "Unknown command '" + "%s" + "'\n" == "Unknown command '%s'\n";
  }

  /** The line of `help` starts with an escape: there is nothing in front of it. */
  lemma HelpFormat(i: nat)
    requires i < 2
    ensures HelpLine(i).Valid() && Fmt(HelpLine(i).pieces) == CString("%s - %s\n")
  {
    TableStrings(i);
    var m := HelpLine(i);
    var qs := [Literal(" - "), String, Literal("\n")];
    assert m.pieces[1..] == qs;
    Unfold(m.pieces, m.args, 0);
    FollowedBy(" - ", String, "\n", m.args);
    assert "%s" + (" - " + "%s" + "\n") == "%s - %s\n";
    FmtIsText(m.pieces);
  }

  lemma TableStrings(i: nat)
    requires i < 2
    ensures IsCString(COMMANDS[i]) && IsCString(DESCRIPTIONS[i])
    ensures |COMMANDS[i]| <= INT_MAX && |DESCRIPTIONS[i]| <= INT_MAX
  {
    PlainCString("Display this list of commands");
    PlainCString("Display information about the kernel");
  }

  lemma PlainCString(text: string)
    requires IsPlain(text)
    ensures IsCString(CString(text))
  {
  }

  lemma StartFormat(s: Symbols)
    ensures StartLine(s).Valid()
    ensures Fmt(StartLine(s).pieces) == CString("  _start                  %08x (phys)\n")
  {
    Around("  _start                  ", Hex8, " (phys)\n", [Word(s.start)]);
    StartText();
  }

  lemma StartText()
    ensures "  _start                  " + "%08x" + " (phys)\n" == "  _start                  %08x (phys)\n"
  {
  }

  lemma SymbolFormat(head: string, virt: uint32)
    requires IsPlain(head)
    ensures SymbolLine(head, virt).Valid()
    ensures Fmt(SymbolLine(head, virt).pieces) == CString(head + "%08x (virt)  %08x (phys)\n")
  {
    AroundTwo(head, Hex8, " (virt)  ", Hex8, " (phys)\n", [Word(virt), Word(Phys(virt))]);
    SymbolText(head);
  }

  lemma SymbolText(head: string)
    ensures head + "%08x" + " (virt)  " + "%08x" + " (phys)\n" == head + "%08x (virt)  %08x (phys)\n"
  {
    assert "%08x" + " (virt)  " + "%08x" + " (phys)\n" == "%08x (virt)  %08x (phys)\n";
    assert head + "%08x" + " (virt)  " + "%08x" + " (phys)\n" == head + ("%08x" + " (virt)  " + "%08x" + " (phys)\n");
  }

  lemma FootprintFormat(s: Symbols)
    ensures FootprintLine(s).Valid()
    ensures Fmt(FootprintLine(s).pieces) == CString("Kernel executable memory footprint: %dKB\n")
  {
    FootprintPlain();
    Around("Kernel executable memory footprint: ", Decimal, "KB\n", [Word(Footprint(s))]);
    FootprintText();
  }

  lemma FootprintPlain()
    ensures IsPlain("Kernel executable memory footprint: ")
  {
  }

  lemma FootprintText()
    ensures "Kernel executable memory footprint: " + "%d" + "KB\n" == "Kernel executable memory footprint: %dKB\n"
  {
  }

  // ----- What one reads -----

  lemma WelcomeReads()
    ensures WELCOME.Text() == Chars("Welcome to the JOS kernel monitor!\n")
    ensures HINT.Text() == Chars("Type 'help' for a list of commands.\n")
  {
    WelcomePlain();
    LiteralReads("Welcome to the JOS kernel monitor!\n");
    LiteralReads("Type 'help' for a list of commands.\n");
  }

  lemma LiteralReads(text: string)
    requires IsPlain(text)
    ensures Message([Literal(text)], []).Text() == Chars(text)
  {
    LoneLiteral(text);
    var ps := [Literal(text)];
    assert ps[1..] == [] && TextOf([], [], 0) == [];
    TextStep(ps, [], 0);
    assert Chars(text) + [] == Chars(text);
  }

  lemma ConsReads(p: Piece, ps: seq<Piece>, args: seq<Arg>, a: nat)
    requires Fits(p, args, a) && Matches(ps, args, After(p, a))
    ensures Matches([p] + ps, args, a)
    ensures TextOf([p] + ps, args, a) == PieceText(p, args, a) + TextOf(ps, args, After(p, a))
  {
    assert ([p] + ps)[1..] == ps;
    TextStep([p] + ps, args, a);
  }

  /** Text around one escape. */
  lemma TripleReads(b: string, q: Piece, c: string, args: seq<Arg>, a: nat)
    requires IsPlain(b) && IsPlain(c) && !q.Literal? && Fits(q, args, a)
    ensures Matches([Literal(b), q, Literal(c)], args, a)
    ensures TextOf([Literal(b), q, Literal(c)], args, a) == Chars(b) + (PieceText(q, args, a) + Chars(c))
  {
    ConsReads(Literal(c), [], args, a + 1);
    ConsReads(q, [Literal(c)] + [], args, a);
    ConsReads(Literal(b), [q] + ([Literal(c)] + []), args, a);
    assert [Literal(b)] + ([q] + ([Literal(c)] + [])) == [Literal(b), q, Literal(c)];
    assert Chars(c) + [] == Chars(c);
  }

  lemma AroundReads(a: string, p: Piece, b: string, args: seq<Arg>)
    requires IsPlain(a) && IsPlain(b) && !p.Literal? && Fits(p, args, 0)
    ensures Message([Literal(a), p, Literal(b)], args).Text() == Chars(a) + PieceText(p, args, 0) + Chars(b)
  {
    TripleReads(a, p, b, args, 0);
  }

  lemma TooManyReads()
    ensures TOO_MANY.Text() == Chars("Too many arguments (max 16)\n")
  {
    AroundReads("Too many arguments (max ", Decimal, ")\n", TOO_MANY.args);
    SixteenReads();
    assert Chars("Too many arguments (max ") + Chars("16") + Chars(")\n") == Chars("Too many arguments (max 16)\n");
  }

  lemma SixteenReads()
    ensures PieceText(Decimal, [Word(16)], 0) == Chars("16")
  {
    assert Digits(1, 10) == [49];
    assert Digits(16, 10) == Digits(1, 10) + [54];
    SignedUnpadded(16);
    assert Chars("16") == [49, 54];
  }

  lemma UnknownReads(word: seq<uint8>)
    requires |word| < INT_MAX && forall k :: 0 <= k < |word| ==> 0 < word[k] < 0x80
    ensures UnknownCommand(word).Text() == Chars("Unknown command '") + word + Chars("'\n")
  {
    AroundReads("Unknown command '", String, "'\n", [Text(word + [0])]);
    assert StringField(word + [0], PLAIN) == word;
  }

  /** A line of help: name, dash, description. */
  lemma HelpReads()
    ensures HelpLine(0).Text() == Chars("help") + Chars(" - ") + Chars("Display this list of commands") + Chars("\n")
    ensures HelpLine(1).Text()
            == Chars("kerninfo") + Chars(" - ") + Chars("Display information about the kernel") + Chars("\n")
  {
    NamesRead();
    HelpLineReads(0, Chars("help"), "Display this list of commands");
    HelpLineReads(1, Chars("kerninfo"), "Display information about the kernel");
  }

  lemma NamesRead()
    ensures COMMANDS[0] == Chars("help") + [0] && COMMANDS[1] == Chars("kerninfo") + [0]
    ensures forall k :: 0 <= k < 4 ==> 0 < Chars("help")[k] < 0x80
    ensures forall k :: 0 <= k < 8 ==> 0 < Chars("kerninfo")[k] < 0x80
    ensures IsPlain("Display this list of commands") && IsPlain("Display information about the kernel")
  {
  }

  lemma HelpLineReads(i: nat, name: seq<int>, description: string)
    requires i < 2 && COMMANDS[i] == name + [0] && DESCRIPTIONS[i] == CString(description)
    requires IsPlain(description) && forall k :: 0 <= k < |name| ==> 0 < name[k] < 0x80
    ensures HelpLine(i).Text() == name + Chars(" - ") + Chars(description) + Chars("\n")
  {
    var args := HelpLine(i).args;
    TableStrings(i);
    TripleReads(" - ", String, "\n", args, 1);
    ConsReads(String, [Literal(" - "), String, Literal("\n")], args, 0);
    assert HelpLine(i).pieces == [String] + [Literal(" - "), String, Literal("\n")];
    NameReads(COMMANDS[i], name);
    DescriptionReads(description);
    var b, c, d := Chars(" - "), Chars(description), Chars("\n");
    assert name + (b + (c + d)) == name + b + c + d;
  }

  lemma NameReads(p: seq<uint8>, name: seq<int>)
    requires p == name + [0] && forall k :: 0 <= k < |name| ==> 0 < name[k] < 0x80
    ensures IsCString(p) && StringField(p, PLAIN) == name
  {
  }

  lemma DescriptionReads(text: string)
    requires IsPlain(text)
    ensures IsCString(CString(text)) && StringField(CString(text), PLAIN) == Chars(text)
  {
  }

  lemma StartReads(s: Symbols)
    ensures StartLine(s).Text()
            == Chars("  _start                  ") + NumberField(s.start, 16, 8, 48) + Chars(" (phys)\n")
  {
    AroundReads("  _start                  ", Hex8, " (phys)\n", [Word(s.start)]);
  }

  /** A symbol line: the name, then its address and its physical address in eight digits each. */
  lemma SymbolReads(head: string, virt: uint32)
    requires IsPlain(head)
    ensures SymbolLine(head, virt).Text()
            == Chars(head) + (NumberField(virt, 16, 8, 48)
               + (Chars(" (virt)  ") + (NumberField(Phys(virt), 16, 8, 48) + Chars(" (phys)\n"))))
  {
    var m, rest := SymbolLine(head, virt), [Literal(" (virt)  "), Hex8, Literal(" (phys)\n")];
    TripleReads(" (virt)  ", Hex8, " (phys)\n", m.args, 1);
    ConsReads(Hex8, rest, m.args, 0);
    ConsReads(Literal(head), [Hex8] + rest, m.args, 0);
    assert m.pieces == [Literal(head)] + ([Hex8] + rest);
  }

  lemma FootprintReads(s: Symbols)
    ensures FootprintLine(s).Text()
            == Chars("Kernel executable memory footprint: ") + SignedField(Signed(Footprint(s)), PLAIN) + Chars("KB\n")
  {
    FootprintPlain();
    AroundReads("Kernel executable memory footprint: ", Decimal, "KB\n", [Word(Footprint(s))]);
  }

  /** The physical address is the virtual one less 0xF0000000, as an address. */
  lemma PhysIs(virt: uint32)
    ensures virt >= 0xF000_0000 ==> Phys(virt) == virt - 0xF000_0000
    ensures virt < 0xF000_0000 ==> Phys(virt) == virt + 0x1000_0000
  {
  }

  /** The footprint is the size in units of 1024, rounded up. */
  lemma FootprintIs(s: Symbols)
    requires s.entry <= s.end && s.end - s.entry + 1023 <= INT_MAX
    ensures var size, kb := s.end - s.entry, Footprint(s);
            1024 * kb - 1024 < size <= 1024 * kb
  {
    var up := s.end - s.entry + 1023;
    assert (s.end - s.entry) % WORD_SIZE == s.end - s.entry && up % WORD_SIZE == up;
    RoundedDown(up);
  }

  lemma RoundedDown(up: nat)
    ensures 1024 * ((up - up % 1024) / 1024) == up - up % 1024
    ensures (up - up % 1024) / 1024 <= up
  {
  }

  lemma SpeechCons(ms: seq<Message>, m: Message)
    ensures Speech(ms + [m]) == Speech(ms) + m.Text()
  {
    assert (ms + [m])[..|ms|] == ms;
  }

  lemma OpeningReads()
    ensures Speech(Opening())
            == Chars("Welcome to the JOS kernel monitor!\n") + Chars("Type 'help' for a list of commands.\n")
  {
    WelcomeReads();
    SpeechCons([], WELCOME);
    SpeechCons([WELCOME], HINT);
    assert [] + [WELCOME] == [WELCOME] && [] + WELCOME.Text() == WELCOME.Text();
  }

  /** What help prints, as one reads it. */
  lemma HelpSpeech()
    ensures Speech(HelpReply(2))
            == (Chars("help") + Chars(" - ") + Chars("Display this list of commands") + Chars("\n"))
               + (Chars("kerninfo") + Chars(" - ") + Chars("Display information about the kernel") + Chars("\n"))
  {
    HelpReads();
    SpeechCons(HelpReply(0), HelpLine(0));
    SpeechCons(HelpReply(1), HelpLine(1));
    assert [] + HelpLine(0).Text() == HelpLine(0).Text();
  }

  /** What kerninfo prints, as one reads it. */
  lemma KerninfoSpeech(s: Symbols)
    ensures Speech(KerninfoReply(s))
            == Chars("Special kernel symbols:\n") + StartLine(s).Text()
               + SymbolLine("  entry  ", s.entry).Text() + SymbolLine("  etext  ", s.etext).Text()
               + SymbolLine("  edata  ", s.edata).Text() + SymbolLine("  end    ", s.end).Text()
               + FootprintLine(s).Text()
  {
    HeadReads();
    var a, b := [SYMBOLS_HEAD], [SYMBOLS_HEAD] + [StartLine(s)];
    var c := b + [SymbolLine("  entry  ", s.entry)];
    var d := c + [SymbolLine("  etext  ", s.etext)];
    var e := d + [SymbolLine("  edata  ", s.edata)];
    SpeechCons([], SYMBOLS_HEAD);
    assert [] + [SYMBOLS_HEAD] == a && [] + SYMBOLS_HEAD.Text() == SYMBOLS_HEAD.Text();
    SpeechCons(a, StartLine(s));
    SpeechCons(b, SymbolLine("  entry  ", s.entry));
    SpeechCons(c, SymbolLine("  etext  ", s.etext));
    SpeechCons(d, SymbolLine("  edata  ", s.edata));
    SpeechCons(e, SymbolLine("  end    ", s.end));
    SpeechCons(e + [SymbolLine("  end    ", s.end)], FootprintLine(s));
  }

  lemma HeadReads()
    ensures SYMBOLS_HEAD.Text() == Chars("Special kernel symbols:\n")
  {
    LiteralReads("Special kernel symbols:\n");
  }

  // ----- None of them moves the cursor back -----

  lemma {:induction false} HelpIsPlain(n: nat)
    requires n <= 2
    ensures forall i :: 0 <= i < |HelpReply(n)| ==> PlainArgs(HelpReply(n)[i].args)
  {
    if n > 0 {
      HelpIsPlain(n - 1);
      PlainBytes("Display this list of commands");
      PlainBytes("Display information about the kernel");
    }
  }

  lemma PlainBytes(text: string)
    requires IsPlain(text)
    ensures forall i :: 0 <= i < |CString(text)| ==> CString(text)[i] != 8
  {
  }

  lemma KerninfoIsPlain(s: Symbols)
    ensures forall i :: 0 <= i < |KerninfoReply(s)| ==> PlainArgs(KerninfoReply(s)[i].args)
  {
  }

  // ----- The commands -----

  /** The console shows, since it was `t`, these messages. */
  ghost predicate Said(console: Screen.Console, t: Terminal.Term, ms: seq<Message>)
    reads console, console.crtBuf
  {
    console.Valid() && t.Valid() && console.term == Terminal.TypeAll(t, Speech(ms))
  }

  method SayLiteral(console: Screen.Console, text: string, ghost t: Terminal.Term, ghost said: seq<Message>)
    requires Said(console, t, said) && IsPlain(text)
    modifies console, console.crtBuf
    ensures Said(console, t, said + [Message([Literal(text)], [])])
  {
    LoneLiteral(text);
    Say(console, CString(text), [], t, said, Message([Literal(text)], []));
  }

  lemma WelcomePlain()
    ensures IsPlain("Welcome to the JOS kernel monitor!\n")
    ensures IsPlain("Type 'help' for a list of commands.\n")
  {
  }

  function Opening(): seq<Message> {
    [WELCOME] + [HINT]
  }

  /** The two lines that open the monitor. */
  method Welcome(console: Screen.Console)
    requires console.Valid()
    modifies console, console.crtBuf
    ensures Said(console, old(console.term), Opening())
  {
    ghost var t := console.term;
    WelcomePlain();
    assert [] + [WELCOME] == [WELCOME];
    SayLiteral(console, "Welcome to the JOS kernel monitor!\n", t, []);
    SayLiteral(console, "Type 'help' for a list of commands.\n", t, [WELCOME]);
  }

  method SayTooMany(console: Screen.Console)
    requires console.Valid()
    modifies console, console.crtBuf
    ensures Said(console, old(console.term), [TOO_MANY])
  {
    TooManyFormat();
    Say(console, CString("Too many arguments (max %d)\n"), [Word(16)], console.term, [], TOO_MANY);
    assert [] + [TOO_MANY] == [TOO_MANY];
  }

  method SayUnknown(console: Screen.Console, word: seq<uint8>)
    requires console.Valid() && |word| < INT_MAX && forall k :: 0 <= k < |word| ==> word[k] != 0
    modifies console, console.crtBuf
    ensures Said(console, old(console.term), [UnknownCommand(word)])
  {
    UnknownFormat(word);
    Say(console, CString("Unknown command '%s'\n"), [Text(word + [0])], console.term, [], UnknownCommand(word));
    assert [] + [UnknownCommand(word)] == [UnknownCommand(word)];
  }

  method MonHelp(console: Screen.Console) returns (code: int)
    requires console.Valid()
    modifies console, console.crtBuf
    ensures Said(console, old(console.term), HelpReply(|COMMANDS|)) && code == 0
  {
    ghost var t := console.term;
    var i := 0;
    while i < |COMMANDS|
      invariant 0 <= i <= 2 && Said(console, t, HelpReply(i))
    {
      HelpFormat(i);
      Say(console, CString("%s - %s\n"), [Text(COMMANDS[i]), Text(DESCRIPTIONS[i])], t, HelpReply(i), HelpLine(i));
      i := i + 1;
    }
    return 0;
  }

  method SaySymbol(console: Screen.Console, head: string, virt: uint32, ghost t: Terminal.Term,
                   ghost said: seq<Message>)
    requires Said(console, t, said) && IsPlain(head)
    modifies console, console.crtBuf
    ensures Said(console, t, said + [SymbolLine(head, virt)])
  {
    SymbolFormat(head, virt);
    Say(console, CString(head + "%08x (virt)  %08x (phys)\n"), [Word(virt), Word(Phys(virt))], t, said,
        SymbolLine(head, virt));
  }

  method SaySymbols(console: Screen.Console, s: Symbols, ghost t: Terminal.Term, ghost said: seq<Message>)
    requires Said(console, t, said)
    modifies console, console.crtBuf
    ensures Said(console, t, said + [SymbolLine("  entry  ", s.entry)] + [SymbolLine("  etext  ", s.etext)]
                             + [SymbolLine("  edata  ", s.edata)] + [SymbolLine("  end    ", s.end)])
  {
    HeadsPlain();
    SayTwo(console, "  entry  ", s.entry, "  etext  ", s.etext, t, said);
    SayTwo(console, "  edata  ", s.edata, "  end    ", s.end, t,
           said + [SymbolLine("  entry  ", s.entry)] + [SymbolLine("  etext  ", s.etext)]);
  }

  lemma HeadsPlain()
    ensures IsPlain("  entry  ") && IsPlain("  etext  ") && IsPlain("  edata  ") && IsPlain("  end    ")
  {
  }

  method SayTwo(console: Screen.Console, first: string, virt: uint32, second: string, other: uint32,
                ghost t: Terminal.Term, ghost said: seq<Message>)
    requires Said(console, t, said) && IsPlain(first) && IsPlain(second)
    modifies console, console.crtBuf
    ensures Said(console, t, said + [SymbolLine(first, virt)] + [SymbolLine(second, other)])
  {
    SaySymbol(console, first, virt, t, said);
    SaySymbol(console, second, other, t, said + [SymbolLine(first, virt)]);
  }

  method MonKerninfo(console: Screen.Console, s: Symbols) returns (code: int)
    requires console.Valid()
    modifies console, console.crtBuf
    ensures Said(console, old(console.term), KerninfoReply(s)) && code == 0
  {
    ghost var t, head := console.term, [SYMBOLS_HEAD] + [StartLine(s)];
    SayKerninfoHead(console, s);
    SaySymbols(console, s, t, head);
    SayFootprint(console, s, t, head + [SymbolLine("  entry  ", s.entry)] + [SymbolLine("  etext  ", s.etext)]
                                + [SymbolLine("  edata  ", s.edata)] + [SymbolLine("  end    ", s.end)]);
    return 0;
  }

  method SayKerninfoHead(console: Screen.Console, s: Symbols)
    requires console.Valid()
    modifies console, console.crtBuf
    ensures Said(console, old(console.term), [SYMBOLS_HEAD] + [StartLine(s)])
  {
    ghost var t := console.term;
    assert [] + [SYMBOLS_HEAD] == [SYMBOLS_HEAD];
    SayLiteral(console, "Special kernel symbols:\n", t, []);
    SayStart(console, s, t, [SYMBOLS_HEAD]);
  }

  method SayStart(console: Screen.Console, s: Symbols, ghost t: Terminal.Term, ghost said: seq<Message>)
    requires Said(console, t, said)
    modifies console, console.crtBuf
    ensures Said(console, t, said + [StartLine(s)])
  {
    StartFormat(s);
    Say(console, CString("  _start                  %08x (phys)\n"), [Word(s.start)], t, said, StartLine(s));
  }

  method SayFootprint(console: Screen.Console, s: Symbols, ghost t: Terminal.Term, ghost said: seq<Message>)
    requires Said(console, t, said)
    modifies console, console.crtBuf
    ensures Said(console, t, said + [FootprintLine(s)])
  {
    FootprintFormat(s);
    Say(console, CString("Kernel executable memory footprint: %dKB\n"), [Word(Footprint(s))], t, said,
        FootprintLine(s));
  }
}
