/** The line editor of the console, and what the user sees while typing. */
module Readline {
  import opened Machine
  import opened Terminal
  import Screen
  import Format
  import Printfmt

  const BUFLEN := 1024

  // ----- Editing -----

  predicate Erases(line: seq<uint8>, c: int) {
    (c == 8 || c == 0x7F) && |line| > 0
  }

  predicate Extends(line: seq<uint8>, c: int) {
    !Erases(line, c) && c >= 32 && |line| < BUFLEN - 1
  }

  /** The characters after which the editor returns. */
  predicate EndsLine(c: int) {
    c < 0 || c == 10 || c == 13
  }

  /** The line after one more character. */
  function Edit(line: seq<uint8>, c: int): seq<uint8>
    requires c <= 0xFF
  {
    if Erases(line, c) then line[..|line| - 1]
    else if Extends(line, c) then line + [c]
    else line
  }

  /** What the editor echoes for it. */
  function Echo(line: seq<uint8>, c: int): seq<int> {
    if Erases(line, c) then [8] else if Extends(line, c) then [c] else []
  }

  /** Characters that keep the editor going: bytes, as the input ring delivers them. */
  predicate Typed(cs: seq<int>) {
    forall i :: 0 <= i < |cs| ==> cs[i] <= 0xFF && !EndsLine(cs[i])
  }

  function EditAll(cs: seq<int>): (line: seq<uint8>)
    requires Typed(cs)
    ensures |line| <= BUFLEN - 1
  {
    if cs == [] then [] else Edit(EditAll(cs[..|cs| - 1]), cs[|cs| - 1])
  }

  function EchoAll(cs: seq<int>): seq<int>
    requires Typed(cs)
  {
    if cs == [] then []
    else EchoAll(cs[..|cs| - 1]) + Echo(EditAll(cs[..|cs| - 1]), cs[|cs| - 1])
  }

  // ----- What the edited line is -----

  /** A character that is stored: printable, and not delete. */
  predicate Stored(c: int) {
    32 <= c <= 0xFF && c != 0x7F
  }

  lemma EditOne(cs: seq<int>, c: int)
    requires Typed(cs) && c <= 0xFF && !EndsLine(c)
    ensures Typed(cs + [c]) && EditAll(cs + [c]) == Edit(EditAll(cs), c)
  {
    assert (cs + [c])[..|cs|] == cs;
  }

  lemma EchoOne(cs: seq<int>, c: int)
    requires Typed(cs) && c <= 0xFF && !EndsLine(c)
    ensures Typed(cs + [c]) && EchoAll(cs + [c]) == EchoAll(cs) + Echo(EditAll(cs), c)
  {
    assert (cs + [c])[..|cs|] == cs;
  }

  lemma Regroup(a: seq<int>, rest: seq<int>)
    requires rest != []
    ensures a + rest == a + rest[..|rest| - 1] + [rest[|rest| - 1]]
  {
  }

  /** Without corrections the line is what was typed. */
  lemma {:induction false} PlainLineIsItself(cs: seq<int>)
    requires |cs| <= 1023 && forall i :: 0 <= i < |cs| ==> Stored(cs[i])
    ensures Typed(cs) && EditAll(cs) == cs
  {
    if cs != [] {
      var init, c := cs[..|cs| - 1], cs[|cs| - 1];
      PlainLineIsItself(init);
      EditOne(init, c);
      PlainEdit(EditAll(init), c);
      assert cs == init + [c];
    }
  }

  lemma PlainEdit(line: seq<uint8>, c: int)
    requires |line| < 1023 && Stored(c)
    ensures Edit(line, c) == line + [c] && Echo(line, c) == [c]
  {
  }

  /** It is echoed as it was typed, too. */
  lemma {:induction false} PlainLineIsEchoed(cs: seq<int>)
    requires |cs| <= 1023 && forall i :: 0 <= i < |cs| ==> Stored(cs[i])
    ensures Typed(cs) && EchoAll(cs) == cs
  {
    if cs != [] {
      var init, c := cs[..|cs| - 1], cs[|cs| - 1];
      PlainLineIsItself(init);
      PlainLineIsEchoed(init);
      EchoOne(init, c);
      PlainEdit(EditAll(init), c);
      assert cs == init + [c];
    }
  }

  /** What is typed later depends on what was typed before only through the line. */
  lemma {:induction false} SameLineSameRest(a: seq<int>, b: seq<int>, rest: seq<int>)
    requires Typed(a) && Typed(b) && Typed(rest) && EditAll(a) == EditAll(b)
    ensures Typed(a + rest) && Typed(b + rest) && EditAll(a + rest) == EditAll(b + rest)
    decreases |rest|
  {
    if rest == [] {
      assert a + rest == a && b + rest == b;
    } else {
      var init, last := rest[..|rest| - 1], rest[|rest| - 1];
      SameLineSameRest(a, b, init);
      EditOne(a + init, last);
      EditOne(b + init, last);
      Regroup(a, rest);
      Regroup(b, rest);
    }
  }

  /** A stored character and an erase key right behind it, backspace or delete, leave no trace,
      wherever they are typed. */
  lemma ErasedLeavesNoTrace(cs: seq<int>, c: int, erase: int, rest: seq<int>)
    requires Typed(cs) && Typed(rest) && Stored(c) && erase in {8, 0x7F} && |EditAll(cs)| < 1023
    ensures Typed(cs + [c] + [erase] + rest) && Typed(cs + rest)
    ensures EditAll(cs + [c] + [erase] + rest) == EditAll(cs + rest)
  {
    EditOne(cs, c);
    EditOne(cs + [c], erase);
    SameLineSameRest(cs + [c] + [erase], cs, rest);
  }

  /** A backspace with nothing to erase does nothing; a delete is then a character like any other. */
  lemma NothingToErase(cs: seq<int>)
    requires Typed(cs) && EditAll(cs) == []
    ensures Typed(cs + [8]) && EditAll(cs + [8]) == []
    ensures Typed(cs + [0x7F]) && EditAll(cs + [0x7F]) == [0x7F]
  {
    EditOne(cs, 8);
    EditOne(cs, 0x7F);
  }

  /** A full line takes no more characters, and control characters other than the erase keys
      and the line ends are ignored. */
  lemma IgnoredCharacter(cs: seq<int>, c: int)
    requires Typed(cs) && 0 <= c <= 0xFF && c !in {8, 10, 13, 0x7F}
    requires c < 32 || |EditAll(cs)| == 1023
    ensures Typed(cs + [c]) && EditAll(cs + [c]) == EditAll(cs)
  {
    EditOne(cs, c);
  }

  // ----- What you see -----

  /** From the prompt on the page shows the line and nothing but the line: the cursor stands
      behind it, and from there on every cell is blank or as it was. No part of the line has
      left the window, which still shows its first line or has 897 cells to spare. */
  ghost predicate Visible(t: Term, was: Term, line: seq<uint8>) {
    && t.Valid() && was.Valid()
    && t.pos == was.pos + |line|
    && |line| <= BUFLEN - 1
    && (t.top == was.top || (t.top > was.top && CRT_COLS * t.top + 897 <= was.pos))
    && t.grid[..was.pos] == was.grid[..was.pos]
    && (forall k :: 0 <= k < |line| ==> 32 <= line[k] && t.grid[was.pos + k] == 0x0700 + (line[k] as int))
    && (forall k :: t.pos <= k < |t.grid| ==> t.grid[k] == BLANK || (k < |was.grid| && t.grid[k] == was.grid[k]))
  }

  lemma EchoedCharacter(t: Term, was: Term, line: seq<uint8>, c: uint8)
    requires Visible(t, was, line) && c >= 32 && |line| < BUFLEN - 1
    ensures Visible(Type(t, c), was, line + [c])
  {
    TypeInside(t, c);
    var u := Type(t, c);
    assert u.grid[t.pos] == 0x0700 + (c as int);
    assert forall k :: 0 <= k < t.pos ==> u.grid[k] == t.grid[k];
  }

  lemma TypeInside(t: Term, c: uint8)
    requires t.Valid() && c >= 32
    ensures Type(t, c) == Scroll(t.(grid := t.grid[t.pos := 0x0700 + (c as int)], pos := t.pos + 1))
  {
    PlainGlyph(c);
    assert Unscrolled(t, c) == t.(grid := t.grid[t.pos := 0x0700 + (c as int)], pos := t.pos + 1);
  }

  lemma EchoedErasure(t: Term, was: Term, line: seq<uint8>)
    requires Visible(t, was, line) && |line| > 0
    ensures Visible(Type(t, 8), was, line[..|line| - 1])
    ensures Type(t, 8).grid[was.pos + |line| - 1] == BLANK
  {
    BackspaceInside(t);
    var u := Type(t, 8);
    assert forall k :: 0 <= k < t.pos - 1 ==> u.grid[k] == t.grid[k];
  }

  lemma BackspaceInside(t: Term)
    requires t.Valid() && t.pos > CRT_COLS * t.top
    ensures Type(t, 8) == t.(grid := t.grid[t.pos - 1 := BLANK], pos := t.pos - 1)
  {
  }

  lemma EchoKeepsVisible(t: Term, was: Term, line: seq<uint8>, c: int)
    requires Visible(t, was, line) && c <= 0xFF && !EndsLine(c)
    ensures Visible(TypeAll(t, Echo(line, c)), was, Edit(line, c))
  {
    if Erases(line, c) {
      EchoedErasure(t, was, line);
      assert [8][1..] == [];
    } else if Extends(line, c) {
      EchoedCharacter(t, was, line, c);
      assert [c][1..] == [];
    }
  }

  /** What you see is what you get, for everything that can be typed. */
  lemma {:induction false} WhatYouSeeIsWhatYouGet(t: Term, cs: seq<int>)
    requires t.Valid() && Typed(cs)
    ensures Visible(TypeAll(t, EchoAll(cs)), t, EditAll(cs))
  {
    if cs != [] {
      var before, c := cs[..|cs| - 1], cs[|cs| - 1];
      WhatYouSeeIsWhatYouGet(t, before);
      TypeAllAppend(t, EchoAll(before), Echo(EditAll(before), c));
      EchoKeepsVisible(TypeAll(t, EchoAll(before)), t, EditAll(before), c);
    }
  }

  // ----- The editor keeps window and page in step -----

  /** Whatever is typed, the editor never sends a backspace that the window would drop. */
  lemma {:induction false} EchoIsNeverDropped(t: Term, cs: seq<int>)
    requires t.Valid() && Typed(cs)
    ensures NothingDropped(t, EchoAll(cs))
  {
    if cs != [] {
      var before, c := cs[..|cs| - 1], cs[|cs| - 1];
      EchoIsNeverDropped(t, before);
      WhatYouSeeIsWhatYouGet(t, before);
      NothingDroppedAppend(t, EchoAll(before), Echo(EditAll(before), c));
      EchoOfOne(TypeAll(t, EchoAll(before)), t, EditAll(before), c);
    }
  }

  lemma EchoOfOne(t: Term, was: Term, line: seq<uint8>, c: int)
    requires Visible(t, was, line) && c <= 0xFF && !EndsLine(c)
    ensures NothingDropped(t, Echo(line, c))
  {
    if Erases(line, c) {
      NothingDroppedOne(t, 8);
    } else if Extends(line, c) {
      NothingDroppedOne(t, c);
    }
  }

  // ----- The editor -----

  const ERROR_FMT: seq<uint8> := Format.CString("read error: %e\n")

  function ErrorLine(c: int): seq<int>
    requires c < 0
  {
    Format.Chars("read error: ") + (Format.ErrorText(-c) + [10])
  }

  lemma ErrorFmtOutput(c: int)
    requires -0x8000_0000 < c < 0
    ensures IsCString(ERROR_FMT) && ERROR_FMT == Format.CString("read error: %e\n")
    ensures Format.Output(ERROR_FMT, [Format.Word(c % WORD_SIZE)])
            == Some(Format.Chars("read error: ") + (Format.ErrorText(-c) + [10]))
  {
    var fmt, args := ERROR_FMT, [Format.Word(c % WORD_SIZE)];
    assert fmt == [114, 101, 97, 100, 32, 101, 114, 114, 111, 114, 58, 32, 37, 101, 10, 0];
    Printfmt.EmittedRun(fmt, 0, 12, args, 0);
    assert fmt[0..12] == Format.Chars("read error: ");
    ErrorEscape(fmt, args, c);
  }

  lemma ErrorEscape(fmt: seq<uint8>, args: seq<Format.Arg>, c: int)
    requires -0x8000_0000 < c < 0 && args == [Format.Word(c % WORD_SIZE)]
    requires fmt == [114, 101, 97, 100, 32, 101, 114, 114, 111, 114, 58, 32, 37, 101, 10, 0]
    ensures Format.Emitted(fmt, 12, args, 0) == Some(Format.ErrorText(-c) + [10])
  {
    assert Format.ReadEscape(fmt, 13, Format.PLAIN, args, 0) == Some(Format.Escape(101, Format.PLAIN, 14, 0));
    assert Format.Signed(c % WORD_SIZE) == c;
    assert Format.Emitted(fmt, 15, args, 1) == Some([]);
    assert Format.Emitted(fmt, 14, args, 1) == Some([10] + []);
    assert [10] + [] == [10];
  }

  function PromptText(prompt: Option<seq<uint8>>): seq<int>
    requires prompt.Some? ==> IsCString(prompt.value)
  {
    if prompt.Some? then Format.StringField(prompt.value, Format.PLAIN) else []
  }

  /** Where the line ends in the input. */
  function LineEnd(input: seq<int>, i: nat): (n: nat)
    requires exists k :: i <= k < |input| && EndsLine(input[k])
    ensures i <= n < |input| && EndsLine(input[n])
    ensures forall k :: i <= k < n ==> !EndsLine(input[k])
    decreases |input| - i
  {
    if EndsLine(input[i]) then i else LineEnd(input, i + 1)
  }

  /** What getchar can deliver: bytes or errors, and at some point something that ends the line. */
  ghost predicate Deliverable(input: seq<int>) {
    && (forall i :: 0 <= i < |input| ==> -0x8000_0000 < input[i] <= 0xFF)
    && exists i :: 0 <= i < |input| && EndsLine(input[i])
  }

  method ShowPrompt(console: Screen.Console, prompt: Option<seq<uint8>>)
    requires console.Valid() && (prompt.Some? ==> IsCString(prompt.value) && |prompt.value| <= INT_MAX)
    modifies console, console.crtBuf
    ensures console.Valid() && console.term == TypeAll(old(console.term), PromptText(prompt))
  {
    if prompt.Some? {
      Printfmt.NestedFormats();
      Printfmt.StringFmtOutput(prompt.value);
      var _ := Printfmt.Vcprintf(console, Printfmt.STRING_FMT, [Format.Text(prompt.value)]);
    }
  }

  method ShowError(console: Screen.Console, c: int)
    requires console.Valid() && -0x8000_0000 < c < 0
    modifies console, console.crtBuf
    ensures console.Valid()
    ensures console.term == TypeAll(old(console.term), ErrorLine(c))
  {
    ErrorFmtOutput(c);
    var _ := Printfmt.Vcprintf(console, ERROR_FMT, [Format.Word(c % WORD_SIZE)]);
  }

  /** The variables of the loop after the characters `taken`, on a screen that was `t`. */
  ghost predicate UpTo(console: Screen.Console, buf: array<uint8>, t: Term, taken: seq<int>, i: nat)
    reads console, console.crtBuf, buf
  {
    && console.Valid() && buf.Length == BUFLEN && buf != console.crtBuf && t.Valid() && Typed(taken)
    && i == |EditAll(taken)| < BUFLEN && buf[..i] == EditAll(taken) && buf[BUFLEN - 1] == 0
    && console.term == TypeAll(t, EchoAll(taken))
  }

  /** One turn of the loop. */
  method NextTurn(console: Screen.Console, buf: array<uint8>, i0: nat, input: seq<int>, n: nat, ghost t: Term)
    returns (i: nat)
    requires n < |input| && UpTo(console, buf, t, input[..n], i0) && input[n] <= 0xFF && !EndsLine(input[n])
    modifies console, console.crtBuf, buf
    ensures UpTo(console, buf, t, input[..n + 1], i)
  {
    assert input[..n + 1] == input[..n] + [input[n]];
    NextCharacter(t, input[..n], input[n]);
    i := TakeCharacter(console, buf, i0, input[n], EditAll(input[..n]));
  }

  /** One character that does not end the line. */
  method TakeCharacter(console: Screen.Console, buf: array<uint8>, i0: nat, c: int, ghost line: seq<uint8>)
    returns (i: nat)
    requires console.Valid() && buf.Length == BUFLEN && buf != console.crtBuf
    requires c <= 0xFF && !EndsLine(c) && i0 == |line| < BUFLEN && buf[..i0] == line
    modifies console, console.crtBuf, buf
    ensures console.Valid() && console.term == TypeAll(old(console.term), Echo(line, c))
    ensures i == |Edit(line, c)| < BUFLEN && buf[..i] == Edit(line, c) && buf[BUFLEN - 1] == old(buf[BUFLEN - 1])
  {
    i := i0;
    if (c == 8 || c == 0x7F) && i > 0 {
      console.ConsPutc(8);
      assert [8][1..] == [];
      i := i - 1;
    } else if c >= 32 && i < BUFLEN - 1 {
      console.ConsPutc(c);
      assert [c][1..] == [];
      buf[i] := c;
      i := i + 1;
    }
  }

  /** Reads a line into the static `buf`, whose last byte starts as zero, echoing it; answers
      whether there is one, and how much input it took. */
  method Readline(console: Screen.Console, prompt: Option<seq<uint8>>, input: seq<int>, buf: array<uint8>)
    returns (ok: bool, used: nat)
    requires console.Valid() && buf.Length == BUFLEN && buf != console.crtBuf && Deliverable(input)
    requires buf[BUFLEN - 1] == 0
    requires prompt.Some? ==> IsCString(prompt.value) && |prompt.value| <= INT_MAX
    modifies console, console.crtBuf, buf
    ensures console.Valid() && used == LineEnd(input, 0) + 1 && (ok <==> input[used - 1] >= 0)
    ensures Typed(input[..used - 1]) && buf[BUFLEN - 1] == 0
    ensures var line := EditAll(input[..used - 1]);
            buf[..|line|] == line && (ok ==> buf[..|line| + 1] == line + [0] && IsCString(line + [0]))
    ensures var before := TypeAll(old(console.term), PromptText(prompt));
            var typed := TypeAll(before, EchoAll(input[..used - 1]));
            && Visible(typed, before, EditAll(input[..used - 1]))
            && console.term == if ok then Type(typed, 10) else TypeAll(typed, ErrorLine(input[used - 1]))
  {
    ShowPrompt(console, prompt);
    ghost var before := console.term;
    var i, n := TypeLine(console, input, buf);
    WhatYouSeeIsWhatYouGet(before, input[..n]);
    used := n + 1;
    var c := input[n];
    ghost var line := EditAll(input[..n]);
    if c < 0 {
      ShowError(console, c);
      ok := false;
    } else {
      console.ConsPutc(10);
      EndLine(buf, i, line);
      ok := true;
    }
    assert input[..used - 1] == input[..n];
  }

  /** Ends the line with its NUL. */
  method EndLine(buf: array<uint8>, i: nat, ghost line: seq<uint8>)
    requires buf.Length == BUFLEN && i == |line| < BUFLEN && buf[..i] == line && buf[BUFLEN - 1] == 0
    modifies buf
    ensures buf[..i] == line && buf[..i + 1] == line + [0] && buf[BUFLEN - 1] == 0
  {
    buf[i] := 0;
  }

  /** The loop, up to the character that ends the line, which is not taken yet. */
  method TypeLine(console: Screen.Console, input: seq<int>, buf: array<uint8>) returns (i: nat, n: nat)
    requires console.Valid() && buf.Length == BUFLEN && buf != console.crtBuf && Deliverable(input)
    requires buf[BUFLEN - 1] == 0
    modifies console, console.crtBuf, buf
    ensures n == LineEnd(input, 0) && UpTo(console, buf, old(console.term), input[..n], i)
  {
    ghost var before := console.term;
    ghost var end := LineEnd(input, 0);
    i, n := 0, 0;
    while !(input[n] < 0 || input[n] == 10 || input[n] == 13)
      invariant n <= end && UpTo(console, buf, before, input[..n], i)
      decreases end - n
    {
      i := NextTurn(console, buf, i, input, n, before);
      n := n + 1;
    }
  }

  lemma NextCharacter(t: Term, cs: seq<int>, c: int)
    requires t.Valid() && Typed(cs) && c <= 0xFF && !EndsLine(c)
    ensures Typed(cs + [c])
    ensures EditAll(cs + [c]) == Edit(EditAll(cs), c)
    ensures TypeAll(t, EchoAll(cs + [c])) == TypeAll(TypeAll(t, EchoAll(cs)), Echo(EditAll(cs), c))
  {
    assert (cs + [c])[..|cs|] == cs;
    TypeAllAppend(t, EchoAll(cs), Echo(EditAll(cs), c));
  }
}
