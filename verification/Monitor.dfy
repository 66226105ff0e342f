/** The command line of the kernel monitor: splitting it in place and finding the command. */
module Monitor {
  import opened Machine
  import Commands
  import Format
  import Messages
  import Readline
  import Screen
  import opened Terminal
  import Strings

  const MAXARGS := 16
  const WHITESPACE: seq<uint8> := [9, 13, 10, 32, 0]

  predicate IsSpace(c: uint8) {
    c == 9 || c == 13 || c == 10 || c == 32
  }

  // ----- Splitting a line -----

  /** The length of the word that starts a line. */
  function WordLen(t: seq<uint8>): (k: nat)
    ensures k <= |t| && (k < |t| ==> IsSpace(t[k]))
    ensures forall i :: 0 <= i < k ==> !IsSpace(t[i])
  {
    if t == [] || IsSpace(t[0]) then 0 else 1 + WordLen(t[1..])
  }

  /** The words of a line. */
  function Split(t: seq<uint8>): seq<seq<uint8>>
    decreases |t|
  {
    if t == [] then []
    else if IsSpace(t[0]) then Split(t[1..])
    else [t[..WordLen(t)]] + Split(t[WordLen(t)..])
  }

  /** A word by itself is its own split. */
  lemma SplitWord(w: seq<uint8>)
    requires w != [] && forall k :: 0 <= k < |w| ==> w[k] !in {9, 10, 13, 32}
    ensures Split(w) == [w]
  {
    assert WordLen(w) == |w| && w[..|w|] == w && w[|w|..] == [];
  }

  lemma {:induction false} WordLenAtSpace(a: seq<uint8>, c: uint8, b: seq<uint8>)
    requires IsSpace(c)
    ensures WordLen(a + [c] + b) == WordLen(a)
    decreases |a|
  {
    if a != [] && !IsSpace(a[0]) {
      assert (a + [c] + b)[1..] == a[1..] + [c] + b;
      WordLenAtSpace(a[1..], c, b);
    }
  }

  lemma SplitWordAtSpace(a: seq<uint8>, c: uint8, b: seq<uint8>)
    requires IsSpace(c) && a != [] && !IsSpace(a[0])
    ensures var k := WordLen(a);
            0 < k <= |a| && Split(a + [c] + b) == [a[..k]] + Split(a[k..] + [c] + b)
  {
    WordLenAtSpace(a, c, b);
    var t, k := a + [c] + b, WordLen(a);
    assert t[..k] == a[..k] && t[k..] == a[k..] + [c] + b;
  }

  /** A separator splits a line in two; with the words by themselves this determines every split. */
  lemma {:induction false} SplitAtSpace(a: seq<uint8>, c: uint8, b: seq<uint8>)
    requires c in {9, 10, 13, 32}
    ensures Split(a + [c] + b) == Split(a) + Split(b)
    decreases |a|
  {
    var t := a + [c] + b;
    if a == [] {
      assert t[1..] == b;
    } else if IsSpace(a[0]) {
      assert t[1..] == a[1..] + [c] + b;
      SplitAtSpace(a[1..], c, b);
    } else {
      SplitWordAtSpace(a, c, b);
      SplitAtSpace(a[WordLen(a)..], c, b);
      assert Split(a) == [a[..WordLen(a)]] + Split(a[WordLen(a)..]);
    }
  }

  /** The line in memory: `n` bytes up to the first NUL. */
  ghost predicate IsLine(s: seq<uint8>, n: nat) {
    n < |s| && s[n] == 0 && s[|s| - 1] == 0 && forall k :: 0 <= k < n ==> s[k] != 0
  }

  /** `m` is `s` with the separators before `p` overwritten by NULs. */
  ghost predicate Blanked(s: seq<uint8>, m: seq<uint8>, p: nat) {
    |m| == |s| && forall k :: 0 <= k < |s| ==> m[k] == if k < p && IsSpace(s[k]) then 0 else s[k]
  }

  /** Whether a character separates words. */
  method InWhitespace(c: uint8) returns (yes: bool)
    ensures yes <==> IsSpace(c)
  {
    var found := Strings.Strchr(WHITESPACE, c);
    yes := found.Some?;
    assert WHITESPACE[0] == 9 && WHITESPACE[1] == 13 && WHITESPACE[2] == 10 && WHITESPACE[3] == 32;
  }

  /** Past every separator at `p`. */
  method GobbleWhitespace(buf: array<uint8>, p0: nat, ghost s: seq<uint8>, ghost n: nat) returns (p: nat)
    requires IsLine(s, n) && p0 <= n && Blanked(s, buf[..], p0)
    modifies buf
    ensures p0 <= p <= n && Blanked(s, buf[..], p) && Split(s[p..n]) == Split(s[p0..n])
    ensures p < n ==> !IsSpace(s[p])
    ensures p == n || buf[p] == s[p]
  {
    p := p0;
    while true
      invariant p0 <= p <= n && Blanked(s, buf[..], p) && Split(s[p..n]) == Split(s[p0..n])
      decreases n - p
    {
      if buf[p] == 0 {
        return;
      }
      var separates := InWhitespace(buf[p]);
      if !separates {
        return;
      }
      assert s[p..n][1..] == s[p + 1..n];
      buf[p] := 0;
      p := p + 1;
    }
  }

  lemma WordGoesOn(t: seq<uint8>, k: nat)
    requires k < |t| && !IsSpace(t[k])
    ensures WordLen(t[k..]) == 1 + WordLen(t[k + 1..])
  {
  }

  /** Past the word at `p`, which is left alone. */
  method ScanWord(buf: array<uint8>, p0: nat, ghost s: seq<uint8>, ghost n: nat) returns (p: nat)
    requires IsLine(s, n) && p0 < n && Blanked(s, buf[..], p0) && !IsSpace(s[p0])
    ensures p == p0 + WordLen(s[p0..n]) <= n && p0 < p && Blanked(s, buf[..], p)
    ensures Split(s[p0..n]) == [s[p0..p]] + Split(s[p..n])
  {
    p := p0;
    ghost var t := s[p0..n];
    while true
      invariant p0 <= p <= n && WordLen(t) == (p - p0) + WordLen(t[p - p0..])
      invariant Blanked(s, buf[..], p)
      decreases n - p
    {
      if buf[p] == 0 {
        break;
      }
      var separates := InWhitespace(buf[p]);
      if separates {
        break;
      }
      WordGoesOn(t, p - p0);
      p := p + 1;
    }
    FirstWord(s, n, p0, p);
  }

  lemma FirstWord(s: seq<uint8>, n: nat, p0: nat, p: nat)
    requires p0 < n <= |s| && !IsSpace(s[p0]) && p == p0 + WordLen(s[p0..n])
    ensures p0 < p <= n && Split(s[p0..n]) == [s[p0..p]] + Split(s[p..n])
  {
    var t := s[p0..n];
    assert t[..WordLen(t)] == s[p0..p];
    assert t[WordLen(t)..] == s[p..n];
  }

  // ----- The argument vector -----

  /** Argument `k` starts at argv[k] and is word `k`, up to the separator or NUL that follows. */
  ghost predicate Holds(s: seq<uint8>, n: nat, start: Option<nat>, word: seq<uint8>, p: nat) {
    && start.Some? && start.value + |word| <= p <= n < |s|
    && s[start.value..start.value + |word|] == word
    && (forall k :: 0 <= k < |word| ==> !IsSpace(word[k]))
    && (start.value + |word| == n || IsSpace(s[start.value + |word|]))
  }

  /** Once the separator after it is overwritten, an argument is a string of its own. */
  lemma ArgumentIsString(s: seq<uint8>, n: nat, m: seq<uint8>, start: Option<nat>, word: seq<uint8>)
    requires IsLine(s, n) && Blanked(s, m, n) && Holds(s, n, start, word, n)
    ensures Strings.StringAt(m, start.value) == word
  {
  }

  /** `vec` holds the first words of the line; the others are still to come from `p` on. */
  ghost predicate SplitSoFar(s: seq<uint8>, n: nat, vec: seq<Option<nat>>, words: seq<seq<uint8>>, p: nat) {
    && p <= n < |s| && |vec| <= |words| && words[|vec|..] == Split(s[p..n])
    && forall k :: 0 <= k < |vec| ==> Holds(s, n, vec[k], words[k], p)
  }

  lemma PastSpace(s: seq<uint8>, n: nat, vec: seq<Option<nat>>, words: seq<seq<uint8>>, p: nat, q: nat)
    requires SplitSoFar(s, n, vec, words, p) && p <= q <= n && Split(s[q..n]) == Split(s[p..n])
    ensures SplitSoFar(s, n, vec, words, q)
  {
  }

  lemma PastWord(s: seq<uint8>, n: nat, vec: seq<Option<nat>>, words: seq<seq<uint8>>, p: nat, q: nat)
    requires SplitSoFar(s, n, vec, words, p) && p <= q <= n
    requires Split(s[p..n]) == [s[p..q]] + Split(s[q..n]) && Holds(s, n, Some(p), s[p..q], q)
    ensures SplitSoFar(s, n, vec + [Some(p)], words, q)
  {
  }

  /** Splits the line in `buf` in place into argv; false when it has too many words. */
  method Tokenise(buf: array<uint8>, argv: array<Option<nat>>, ghost n: nat) returns (ok: bool, argc: nat)
    requires IsLine(buf[..], n) && argv.Length == MAXARGS
    modifies buf, argv
    ensures var words := Split(old(buf[..])[..n]);
            && (ok <==> |words| < MAXARGS)
            && (ok ==> argc == |words| && argv[argc] == None && Blanked(old(buf[..]), buf[..], n)
                       && SplitSoFar(old(buf[..]), n, argv[..argc], words, n))
    ensures buf[buf.Length - 1] == 0
  {
    ghost var s := buf[..];
    ghost var words := Split(s[..n]);
    argc := 0;
    argv[argc] := None;
    var p := 0;
    assert s[0..n] == s[..n];
    while true
      invariant argc < MAXARGS && Blanked(s, buf[..], p)
      invariant SplitSoFar(s, n, argv[..argc], words, p)
      decreases n - p
    {
      ghost var p0 := p;
      p := GobbleWhitespace(buf, p, s, n);
      PastSpace(s, n, argv[..argc], words, p0, p);
      if buf[p] == 0 {
        break;
      }
      if argc == MAXARGS - 1 {
        OneMoreWord(s, n, p);
        return false, argc;
      }
      p := TakeWord(buf, argv, argc, p, s, n, words);
      argc := argc + 1;
    }
    assert s[n..n] == [];
    argv[argc] := None;
    return true, argc;
  }

  lemma OneMoreWord(s: seq<uint8>, n: nat, p: nat)
    requires p < n < |s| && !IsSpace(s[p])
    ensures |Split(s[p..n])| > 0
  {
  }

  /** Enters the word at `p` into argv and goes past it. */
  method TakeWord(buf: array<uint8>, argv: array<Option<nat>>, argc: nat, p: nat,
                  ghost s: seq<uint8>, ghost n: nat, ghost words: seq<seq<uint8>>) returns (q: nat)
    requires IsLine(s, n) && p < n && Blanked(s, buf[..], p) && !IsSpace(s[p]) && argc < argv.Length
    requires SplitSoFar(s, n, argv[..argc], words, p)
    modifies argv
    ensures p < q <= n && Blanked(s, buf[..], q)
    ensures SplitSoFar(s, n, argv[..argc + 1], words, q)
  {
    ghost var vec := argv[..argc];
    argv[argc] := Some(p);
    q := ScanWord(buf, p, s, n);
    WordHeld(s, n, p, q);
    PastWord(s, n, vec, words, p, q);
    assert argv[..argc + 1] == vec + [Some(p)];
  }

  lemma WordHeld(s: seq<uint8>, n: nat, p0: nat, p: nat)
    requires IsLine(s, n) && p0 < n && p == p0 + WordLen(s[p0..n])
    ensures p <= n && Holds(s, n, Some(p0), s[p0..p], p)
  {
    var t := s[p0..n];
    assert forall k :: 0 <= k < p - p0 ==> s[p0..p][k] == t[k];
    assert p < n ==> t[p - p0] == s[p];
  }

  // ----- Commands -----

  datatype Outcome = Nothing | TooMany | Unknown | Dispatched(command: nat)

  /** The first command from `i` on with this name. */
  function CommandFrom(word: seq<uint8>, i: nat): Outcome
    requires i <= |Commands.COMMANDS|
    decreases |Commands.COMMANDS| - i
  {
    if i == |Commands.COMMANDS| then Unknown
    else if |Commands.COMMANDS[i]| > 0 && Commands.COMMANDS[i][..|Commands.COMMANDS[i]| - 1] == word then Dispatched(i)
    else CommandFrom(word, i + 1)
  }

  /** What a line of these words does. */
  function Choose(words: seq<seq<uint8>>): Outcome {
    if |words| == 0 then Nothing
    else if |words| >= MAXARGS then TooMany
    else CommandFrom(words[0], 0)
  }

  lemma CommandNames()
    ensures forall i :: 0 <= i < |Commands.COMMANDS| ==> IsCString(Commands.COMMANDS[i])
  {
  }

  /** A line without words does nothing, one with 16 or more is refused, and any other runs the
      command that its first word names, help or kerninfo, and is unknown without one. */
  lemma ChooseMeans(words: seq<seq<uint8>>)
    ensures Choose(words) == Nothing <==> words == []
    ensures Choose(words) == TooMany <==> |words| >= 16
    ensures Choose(words) == Dispatched(0) <==> 0 < |words| < 16 && words[0] == [104, 101, 108, 112]
    ensures Choose(words) == Dispatched(1) <==>
              0 < |words| < 16 && words[0] == [107, 101, 114, 110, 105, 110, 102, 111]
    ensures Choose(words) in {Nothing, TooMany, Unknown, Dispatched(0), Dispatched(1)}
  {
  }

  /** What a line with this outcome prints; `word` is its first word. */
  function ReplyTo(outcome: Outcome, word: seq<uint8>, symbols: Commands.Symbols): seq<Messages.Message> {
    match outcome
    case Nothing => []
    case TooMany => [Commands.TOO_MANY]
    case Unknown => [Commands.UnknownCommand(word)]
    case Dispatched(i) => if i == 0 then Commands.HelpReply(2) else Commands.KerninfoReply(symbols)
  }

  function Reply(words: seq<seq<uint8>>, symbols: Commands.Symbols): seq<Messages.Message> {
    ReplyTo(Choose(words), if words == [] then [] else words[0], symbols)
  }

  /** Splits the line, finds its command and runs it; argv is what the command receives. */
  method Runcmd(console: Screen.Console, symbols: Commands.Symbols, buf: array<uint8>, ghost n: nat)
    returns (code: int, outcome: Outcome, argc: nat, argv: array<Option<nat>>)
    requires IsLine(buf[..], n) && buf.Length <= INT_MAX && console.Valid() && buf != console.crtBuf
    modifies buf, console, console.crtBuf
    ensures var words := Split(old(buf[..])[..n]);
            && code == 0 && outcome == Choose(words)
            && fresh(argv) && argv.Length == MAXARGS
            && (|words| < MAXARGS ==>
                  && argc == |words| && argv[argc] == None
                  && Blanked(old(buf[..]), buf[..], n) && AreStrings(buf[..], n, argv[..argc], words))
            && Commands.Said(console, old(console.term), Reply(words, symbols))
    ensures buf[buf.Length - 1] == 0
  {
    argv := new Option<nat>[MAXARGS](_ => None);
    ghost var s := buf[..];
    ghost var words := Split(s[..n]);
    var ok;
    ok, argc := Tokenise(buf, argv, n);
    if !ok {
      outcome := TooMany;
      code := Execute(console, symbols, outcome, []);
      return;
    }
    ArgumentsAreStrings(s, n, buf[..], argv[..argc], words);
    if argc == 0 {
      return 0, Nothing, argc, argv;
    }
    code, outcome := RunCommand(console, symbols, buf, argv[0].value, words[0]);
  }

  /** The lookup and the call. */
  method RunCommand(console: Screen.Console, symbols: Commands.Symbols, buf: array<uint8>, name: nat,
                    ghost word: seq<uint8>)
    returns (code: int, outcome: Outcome)
    requires name < buf.Length <= INT_MAX && buf[buf.Length - 1] == 0 && console.Valid() && buf != console.crtBuf
    requires word == Strings.StringAt(buf[..], name)
    modifies console, console.crtBuf
    ensures code == 0 && outcome == CommandFrom(word, 0)
    ensures Commands.Said(console, old(console.term), ReplyTo(outcome, word, symbols))
  {
    outcome := FindCommand(buf, name);
    code := Execute(console, symbols, outcome, Strings.StringAt(buf[..], name));
  }

  /** The message or the command that a line ends in. */
  method Execute(console: Screen.Console, symbols: Commands.Symbols, outcome: Outcome, word: seq<uint8>)
    returns (code: int)
    requires console.Valid() && |word| < INT_MAX && forall k :: 0 <= k < |word| ==> word[k] != 0
    modifies console, console.crtBuf
    ensures Commands.Said(console, old(console.term), ReplyTo(outcome, word, symbols)) && code == 0
  {
    code := 0;
    match outcome {
      case Nothing =>
      case TooMany =>
        Commands.SayTooMany(console);
      case Unknown =>
        Commands.SayUnknown(console, word);
      case Dispatched(i) =>
        if i == 0 {
          code := Commands.MonHelp(console);
        } else {
          code := Commands.MonKerninfo(console, symbols);
        }
    }
  }

  /** Each argument points to its word as a C string. */
  ghost predicate AreStrings(m: seq<uint8>, n: nat, vec: seq<Option<nat>>, words: seq<seq<uint8>>) {
    && |vec| == |words| && n < |m| && m[|m| - 1] == 0
    && forall k :: 0 <= k < |vec| ==>
         vec[k].Some? && vec[k].value < n && Strings.StringAt(m, vec[k].value) == words[k]
  }

  lemma ArgumentsAreStrings(s: seq<uint8>, n: nat, m: seq<uint8>, vec: seq<Option<nat>>, words: seq<seq<uint8>>)
    requires IsLine(s, n) && Blanked(s, m, n) && SplitSoFar(s, n, vec, words, n) && words == Split(s[..n])
    requires |vec| == |words|
    ensures AreStrings(m, n, vec, words)
  {
    forall k | 0 <= k < |vec|
      ensures vec[k].Some? && vec[k].value < n && Strings.StringAt(m, vec[k].value) == words[k]
    {
      WordsNonempty(s[..n]);
      ArgumentIsString(s, n, m, vec[k], words[k]);
    }
  }

  lemma {:induction false} WordsNonempty(t: seq<uint8>)
    ensures forall k :: 0 <= k < |Split(t)| ==> |Split(t)[k]| > 0
    decreases |t|
  {
    if t != [] {
      if IsSpace(t[0]) {
        WordsNonempty(t[1..]);
      } else {
        WordsNonempty(t[WordLen(t)..]);
      }
    }
  }

  /** The loop over the command table. */
  method FindCommand(buf: array<uint8>, name: nat) returns (outcome: Outcome)
    requires name < buf.Length && buf[buf.Length - 1] == 0
    ensures outcome == CommandFrom(Strings.StringAt(buf[..], name), 0)
  {
    CommandNames();
    var i := 0;
    while i < |Commands.COMMANDS|
      invariant 0 <= i <= |Commands.COMMANDS|
      invariant CommandFrom(Strings.StringAt(buf[..], name), 0) == CommandFrom(Strings.StringAt(buf[..], name), i)
    {
      var d := Strings.Strcmp(buf[..], name, Commands.COMMANDS[i]);
      if d == 0 {
        return Dispatched(i);
      }
      i := i + 1;
    }
    return Unknown;
  }

  // ----- The monitor's loop -----

  const PROMPT: seq<uint8> := [75, 62, 32, 0]

  /** What a turn of the monitor puts on the screen: prompt, echo, newline, and the reply. */
  function TurnText(line: seq<int>, symbols: Commands.Symbols): seq<int>
    requires Readline.Typed(line)
  {
    Readline.PromptText(Some(PROMPT)) + Readline.EchoAll(line) + [10]
    + Messages.Speech(Reply(Split(Readline.EditAll(line)), symbols))
  }

  /** One turn of the monitor: None when no line could be read. */
  method Turn(console: Screen.Console, symbols: Commands.Symbols, input: seq<int>, buf: array<uint8>)
    returns (code: int, outcome: Option<Outcome>, used: nat)
    requires console.Valid() && buf.Length == Readline.BUFLEN && buf != console.crtBuf
    requires buf[Readline.BUFLEN - 1] == 0 && Readline.Deliverable(input)
    modifies console, console.crtBuf, buf
    ensures console.Valid() && used == Readline.LineEnd(input, 0) + 1 && Readline.Typed(input[..used - 1])
    ensures buf[Readline.BUFLEN - 1] == 0 && code == 0
    ensures outcome == if input[used - 1] < 0 then None
                       else Some(Choose(Split(Readline.EditAll(input[..used - 1]))))
    ensures outcome.Some? ==> console.term == TypeAll(old(console.term), TurnText(input[..used - 1], symbols))
  {
    assert IsCString(PROMPT);
    ghost var t := console.term;
    var ok;
    ok, used := Readline.Readline(console, Some(PROMPT), input, buf);
    if !ok {
      return 0, None, used;
    }
    ghost var line := input[..used - 1];
    var o;
    code, o := RunTyped(console, symbols, buf, Readline.EditAll(line));
    outcome := Some(o);
    JoinTurn(t, Readline.PromptText(Some(PROMPT)), Readline.EchoAll(line),
             Messages.Speech(Reply(Split(Readline.EditAll(line)), symbols)));
  }

  /** What a line is answered with: nothing without words, else the complaint or the command's
      output that its first word calls for. */
  lemma ReplyReads(words: seq<seq<uint8>>, symbols: Commands.Symbols)
    ensures words == [] ==> Messages.Speech(Reply(words, symbols)) == []
    ensures |words| >= 16 ==>
              Messages.Speech(Reply(words, symbols)) == Format.Chars("Too many arguments (max 16)\n")
    ensures 0 < |words| < 16 && words[0] == [104, 101, 108, 112] ==>
              Reply(words, symbols) == Commands.HelpReply(2)
    ensures 0 < |words| < 16 && words[0] == [107, 101, 114, 110, 105, 110, 102, 111] ==>
              Reply(words, symbols) == Commands.KerninfoReply(symbols)
    ensures 0 < |words| < 16 && words[0] !in {[104, 101, 108, 112], [107, 101, 114, 110, 105, 110, 102, 111]}
            && |words[0]| < INT_MAX && (forall k :: 0 <= k < |words[0]| ==> 0 < words[0][k] < 0x80) ==>
              Messages.Speech(Reply(words, symbols))
              == Format.Chars("Unknown command '") + words[0] + Format.Chars("'\n")
  {
    ChooseMeans(words);
    Commands.TooManyReads();
    Commands.SpeechCons([], Commands.TOO_MANY);
    assert [] + [Commands.TOO_MANY] == [Commands.TOO_MANY];
    if 0 < |words| < 16 && |words[0]| < INT_MAX && (forall k :: 0 <= k < |words[0]| ==> 0 < words[0][k] < 0x80) {
      UnknownSpeech(words[0]);
    }
  }

  lemma UnknownSpeech(word: seq<uint8>)
    requires |word| < INT_MAX && forall k :: 0 <= k < |word| ==> 0 < word[k] < 0x80
    ensures Messages.Speech([Commands.UnknownCommand(word)])
            == Format.Chars("Unknown command '") + word + Format.Chars("'\n")
  {
    Commands.UnknownReads(word);
    Commands.SpeechCons([], Commands.UnknownCommand(word));
    assert [] + [Commands.UnknownCommand(word)] == [Commands.UnknownCommand(word)];
  }

  /** A turn as one reads it, for a line typed without corrections. */
  lemma TurnReads(typed: seq<int>, line: seq<uint8>, symbols: Commands.Symbols)
    requires |typed| <= 1023 && (forall i :: 0 <= i < |typed| ==> Readline.Stored(typed[i])) && line == typed
    ensures Readline.Typed(typed)
    ensures TurnText(typed, symbols)
            == Format.Chars("K> ") + typed + [10] + Messages.Speech(Reply(Split(line), symbols))
  {
    PromptIs();
    Readline.PlainLineIsItself(typed);
    Readline.PlainLineIsEchoed(typed);
    assert Readline.EditAll(typed) == line;
  }

  /** The prompt as one reads it. */
  lemma PromptIs()
    ensures Readline.PromptText(Some(PROMPT)) == Format.Chars("K> ")
  {
  }

  lemma JoinTurn(t: Term, prompt: seq<int>, echo: seq<int>, reply: seq<int>)
    requires t.Valid()
    ensures TypeAll(t, prompt + echo + [10] + reply)
            == TypeAll(Type(TypeAll(TypeAll(t, prompt), echo), 10), reply)
  {
    TypeAllAppend(t, prompt + echo + [10], reply);
    TypeAllAppend(t, prompt + echo, [10]);
    TypeAllAppend(t, prompt, echo);
    assert [10][1..] == [];
  }

  method RunTyped(console: Screen.Console, symbols: Commands.Symbols, buf: array<uint8>, ghost line: seq<uint8>)
    returns (code: int, outcome: Outcome)
    requires |line| < buf.Length <= INT_MAX && buf[..|line| + 1] == line + [0] && IsCString(line + [0])
    requires buf[buf.Length - 1] == 0 && console.Valid() && buf != console.crtBuf
    modifies buf, console, console.crtBuf
    ensures code == 0 && outcome == Choose(Split(line)) && buf[buf.Length - 1] == 0
    ensures Commands.Said(console, old(console.term), Reply(Split(line), symbols))
  {
    TypedLine(buf[..], line);
    var argc, argv;
    code, outcome, argc, argv := Runcmd(console, symbols, buf, |line|);
  }

  lemma TypedLine(m: seq<uint8>, line: seq<uint8>)
    requires |line| < |m| && m[..|line| + 1] == line + [0] && IsCString(line + [0]) && m[|m| - 1] == 0
    ensures IsLine(m, |line|) && m[..|line|] == line
  {
    var s := line + [0];
    assert forall k :: 0 <= k <= |line| ==> m[k] == s[k];
  }

  // ----- A turn never drops a backspace -----

  lemma {:induction false} EditedIsPrintable(cs: seq<int>)
    requires Readline.Typed(cs)
    ensures forall k :: 0 <= k < |Readline.EditAll(cs)| ==> Readline.EditAll(cs)[k] >= 32
  {
    if cs != [] {
      EditedIsPrintable(cs[..|cs| - 1]);
    }
  }

  ghost predicate WithoutBackspace(t: seq<uint8>) {
    forall k :: 0 <= k < |t| ==> t[k] != 8
  }

  lemma {:induction false} WordsWithoutBackspace(t: seq<uint8>)
    requires WithoutBackspace(t)
    ensures forall i :: 0 <= i < |Split(t)| ==> WithoutBackspace(Split(t)[i])
    decreases |t|
  {
    if t != [] {
      WordsWithoutBackspace(if IsSpace(t[0]) then t[1..] else t[WordLen(t)..]);
    }
  }

  lemma ReplyIsPlain(words: seq<seq<uint8>>, symbols: Commands.Symbols)
    requires forall i :: 0 <= i < |words| ==> WithoutBackspace(words[i])
    ensures Messages.NoBackspace(Messages.Speech(Reply(words, symbols)))
  {
    var ms := Reply(words, symbols);
    match Choose(words) {
      case Nothing =>
      case TooMany =>
      case Unknown => assert Messages.PlainArgs(ms[0].args);
      case Dispatched(i) => if i == 0 { Commands.HelpIsPlain(2); } else { Commands.KerninfoIsPlain(symbols); }
    }
    Messages.SpeechHasNoBackspace(ms);
  }

  lemma NewlineIsPlain()
    ensures Messages.NoBackspace([10])
  {
  }

  lemma PromptIsPlain()
    ensures Messages.NoBackspace(Readline.PromptText(Some(PROMPT)))
  {
  }

  /** Whatever is typed at the prompt, nothing that the turn prints is dropped by the window. */
  lemma TurnIsNeverDropped(t: Term, line: seq<int>, symbols: Commands.Symbols)
    requires t.Valid() && Readline.Typed(line)
    ensures NothingDropped(t, TurnText(line, symbols))
  {
    var edited, prompt := Readline.EditAll(line), Readline.PromptText(Some(PROMPT));
    EditedIsPrintable(line);
    WordsWithoutBackspace(edited);
    ReplyIsPlain(Split(edited), symbols);
    PromptIsPlain();
    NewlineIsPlain();
    PlainTextIsNeverDropped(t, prompt);
    Readline.EchoIsNeverDropped(TypeAll(t, prompt), line);
    FourParts(t, prompt, Readline.EchoAll(line), [10], Messages.Speech(Reply(Split(edited), symbols)));
  }

  lemma FourParts(t: Term, prompt: seq<int>, echo: seq<int>, newline: seq<int>, reply: seq<int>)
    requires t.Valid() && NothingDropped(t, prompt) && NothingDropped(TypeAll(t, prompt), echo)
    requires Messages.NoBackspace(newline) && Messages.NoBackspace(reply)
    ensures NothingDropped(t, prompt + echo + newline + reply)
  {
    NothingDroppedAppend(t, prompt, echo);
    ThenPlainText(t, prompt + echo, newline);
    ThenPlainText(t, prompt + echo + newline, reply);
  }

  lemma ThenPlainText(t: Term, before: seq<int>, text: seq<int>)
    requires t.Valid() && NothingDropped(t, before) && Messages.NoBackspace(text)
    ensures NothingDropped(t, before + text)
  {
    PlainTextIsNeverDropped(TypeAll(t, before), text);
    NothingDroppedAppend(t, before, text);
  }
}
