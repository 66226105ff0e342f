/** From the keys to the commands: controller, ring, line editor and monitor together. */
module Typing {
  import opened Machine
  import InputRing
  import Keyboard
  import Keycaps
  import Commands
  import Format
  import Messages
  import Readline
  import Monitor
  import Screen
  import Terminal

  /** What is waiting at the devices when cons_getc is called: bytes of the serial port, and
      scan bytes of the keyboard. */
  datatype Round = Round(serial: seq<uint8>, scan: seq<uint8>)

  lemma Assoc<T>(a: seq<T>, b: seq<T>, c: seq<T>)
    ensures a + b + c == a + (b + c)
  {
  }

  // ----- The devices -----

  function SerialAnswers(serial: seq<uint8>): seq<int> {
    var bytes: seq<int> := serial;
    bytes + [-1]
  }

  function NonZero(cs: seq<uint8>): seq<uint8> {
    if cs == [] then [] else (if cs[0] == 0 then [] else [cs[0]]) + NonZero(cs[1..])
  }

  lemma {:induction false} SerialStored(serial: seq<uint8>)
    ensures InputRing.Polled(SerialAnswers(serial))
    ensures InputRing.Stored(SerialAnswers(serial)) == NonZero(serial)
  {
    if serial != [] {
      SerialStored(serial[1..]);
      PolledMore(serial[0], SerialAnswers(serial[1..]));
      assert SerialAnswers(serial) == [serial[0] as int] + SerialAnswers(serial[1..]);
    }
  }

  lemma PolledMore(c: uint8, rest: seq<int>)
    requires InputRing.Polled(rest)
    ensures InputRing.Polled([c as int] + rest)
    ensures InputRing.Stored([c as int] + rest) == (if c == 0 then [] else [c]) + InputRing.Stored(rest)
  {
    assert ([c as int] + rest)[1..] == rest;
  }

  /** What kbd_proc_data answers to the scan bytes `scan` after the bytes `before`. */
  function KeyAnswers(before: seq<uint8>, scan: seq<uint8>): seq<int>
    decreases |scan|
  {
    if scan == [] then [-1]
    else [Keyboard.CharFor(Keyboard.State(before), scan[0]) as int] + KeyAnswers(before + [scan[0]], scan[1..])
  }

  /** The characters that the keys spell. */
  function KeyChars(before: seq<uint8>, scan: seq<uint8>): seq<uint8>
    decreases |scan|
  {
    if scan == [] then []
    else
      var c := Keyboard.CharFor(Keyboard.State(before), scan[0]);
      (if c == 0 then [] else [c]) + KeyChars(before + [scan[0]], scan[1..])
  }

  lemma {:induction false} KeysStored(before: seq<uint8>, scan: seq<uint8>)
    ensures InputRing.Polled(KeyAnswers(before, scan))
    ensures InputRing.Stored(KeyAnswers(before, scan)) == KeyChars(before, scan)
    decreases |scan|
  {
    if scan != [] {
      KeysStored(before + [scan[0]], scan[1..]);
      PolledMore(Keyboard.CharFor(Keyboard.State(before), scan[0]), KeyAnswers(before + [scan[0]], scan[1..]));
    }
  }

  lemma {:induction false} KeyCharsAppend(before: seq<uint8>, a: seq<uint8>, b: seq<uint8>)
    ensures KeyChars(before, a + b) == KeyChars(before, a) + KeyChars(before + a, b)
    decreases |a|
  {
    if a == [] {
      assert a + b == b && before + a == before;
    } else {
      var c := Keyboard.CharFor(Keyboard.State(before), a[0]);
      var first: seq<uint8> := if c == 0 then [] else [c];
      assert (a + b)[1..] == a[1..] + b && a == [a[0]] + a[1..];
      KeyCharsAppend(before + [a[0]], a[1..], b);
      Assoc(before, [a[0]], a[1..]);
      Assoc(first, KeyChars(before + [a[0]], a[1..]), KeyChars(before + a, b));
    }
  }

  // ----- Many rounds -----

  function RoundChars(serialExists: bool, before: seq<uint8>, r: Round): seq<uint8> {
    (if serialExists then NonZero(r.serial) else []) + KeyChars(before, r.scan)
  }

  /** Everything that comes in, in order. */
  function Chars(serialExists: bool, before: seq<uint8>, rounds: seq<Round>): seq<uint8>
    decreases |rounds|
  {
    if rounds == [] then []
    else RoundChars(serialExists, before, rounds[0]) + Chars(serialExists, before + rounds[0].scan, rounds[1..])
  }

  function Scans(rounds: seq<Round>): seq<uint8> {
    if rounds == [] then [] else rounds[0].scan + Scans(rounds[1..])
  }

  function RoundEvents(serialExists: bool, before: seq<uint8>, r: Round): seq<InputRing.Event> {
    InputRing.Arrivals(RoundChars(serialExists, before, r)) + [InputRing.Read]
  }

  /** What the rounds do to the ring: one call of cons_getc each. */
  function Session(serialExists: bool, before: seq<uint8>, rounds: seq<Round>): seq<InputRing.Event>
    decreases |rounds|
  {
    if rounds == [] then []
    else RoundEvents(serialExists, before, rounds[0]) + Session(serialExists, before + rounds[0].scan, rounds[1..])
  }

  /** With the keyboard alone, what comes in is what the scan bytes spell, however they are
      spread over the rounds. */
  lemma {:induction false} KeyboardOnly(serialExists: bool, before: seq<uint8>, rounds: seq<Round>)
    requires serialExists ==> forall i :: 0 <= i < |rounds| ==> rounds[i].serial == []
    ensures Chars(serialExists, before, rounds) == KeyChars(before, Scans(rounds))
    decreases |rounds|
  {
    if rounds != [] {
      var first := rounds[0];
      KeyboardOnly(serialExists, before + first.scan, rounds[1..]);
      KeyCharsAppend(before, first.scan, Scans(rounds[1..]));
      assert RoundChars(serialExists, before, first) == KeyChars(before, first.scan);
    }
  }

  lemma {:induction false} SessionAppend(serialExists: bool, before: seq<uint8>, a: seq<Round>, r: Round)
    ensures Scans(a + [r]) == Scans(a) + r.scan
    ensures Session(serialExists, before, a + [r])
            == Session(serialExists, before, a) + RoundEvents(serialExists, before + Scans(a), r)
    decreases |a|
  {
    if a == [] {
      assert (a + [r])[1..] == [] && before + [] == before;
    } else {
      var here := before + a[0].scan;
      assert (a + [r])[0] == a[0] && (a + [r])[1..] == a[1..] + [r];
      SessionAppend(serialExists, here, a[1..], r);
      Assoc(before, a[0].scan, Scans(a[1..]));
      Assoc(a[0].scan, Scans(a[1..]), r.scan);
      Assoc(RoundEvents(serialExists, before, a[0]), Session(serialExists, here, a[1..]),
            RoundEvents(serialExists, here + Scans(a[1..]), r));
    }
  }

  lemma {:induction false} SessionFeeds(evs: seq<InputRing.Event>, serialExists: bool, before: seq<uint8>,
                                        rounds: seq<Round>)
    ensures InputRing.Play(evs + Session(serialExists, before, rounds)).stream.fed
            == InputRing.Play(evs).stream.fed + Chars(serialExists, before, rounds)
    decreases |rounds|
  {
    if rounds == [] {
      assert evs + [] == evs;
    } else {
      var cs, first := RoundChars(serialExists, before, rounds[0]), RoundEvents(serialExists, before, rounds[0]);
      var here := before + rounds[0].scan;
      RoundFeeds(evs, cs);
      SessionFeeds(evs + first, serialExists, here, rounds[1..]);
      Assoc(evs, first, Session(serialExists, here, rounds[1..]));
      Assoc(InputRing.Play(evs).stream.fed, cs, Chars(serialExists, here, rounds[1..]));
    }
  }

  lemma RoundFeeds(evs: seq<InputRing.Event>, cs: seq<uint8>)
    ensures InputRing.Play(evs + (InputRing.Arrivals(cs) + [InputRing.Read])).stream.fed
            == InputRing.Play(evs).stream.fed + cs
  {
    var mid := evs + InputRing.Arrivals(cs);
    InputRing.FeedIsPlay(evs, cs);
    FeedAllFed(InputRing.Play(evs).stream, cs);
    var all := evs + (InputRing.Arrivals(cs) + [InputRing.Read]);
    assert all[..|all| - 1] == mid;
  }

  lemma {:induction false} FeedAllFed(s: InputRing.Stream, cs: seq<uint8>)
    ensures InputRing.FeedAll(s, cs).fed == s.fed + cs
    decreases |cs|
  {
    if cs != [] {
      FeedAllFed(InputRing.Feed(s, cs[0]), cs[1..]);
      assert s.fed + [cs[0]] + cs[1..] == s.fed + cs;
    }
  }

  // ----- What has been read -----

  /** The characters that the calls in `all` answered after those in `past`. */
  function ReadSince(past: seq<InputRing.Event>, all: seq<InputRing.Event>): seq<uint8> {
    var n, out := |InputRing.Play(past).out|, InputRing.Play(all).out;
    if n <= |out| then out[n..] else []
  }

  /** While there are never more than 511 characters waiting, what getchar returns is what
      was waiting and then what was typed, in order and without loss. */
  lemma ReadAsTyped(past: seq<InputRing.Event>, serialExists: bool, before: seq<uint8>, rounds: seq<Round>)
    requires var all := past + Session(serialExists, before, rounds);
             InputRing.Legal(all) && InputRing.NeverFull(all)
    ensures var all, p := past + Session(serialExists, before, rounds), InputRing.Play(past);
            && |p.out| <= |p.stream.fed|
            && ReadSince(past, all) <= p.stream.fed[|p.out|..] + Chars(serialExists, before, rounds)
  {
    var events := Session(serialExists, before, rounds);
    InputRing.NothingLostIff(past + events);
    NeverFullBefore(past, events);
    InputRing.NothingLostIff(past);
    InputRing.PlayGrows(past, events);
    SessionFeeds(past, serialExists, before, rounds);
    SplitPrefix(InputRing.Play(past).out, InputRing.Play(past + events).out, InputRing.Play(past).stream.fed,
                Chars(serialExists, before, rounds));
  }

  lemma SplitPrefix(a: seq<uint8>, b: seq<uint8>, fed: seq<uint8>, more: seq<uint8>)
    requires a <= b <= fed + more && a <= fed
    ensures b[|a|..] <= fed[|a|..] + more
  {
    assert (fed + more)[|a|..] == fed[|a|..] + more;
  }

  lemma NeverFullBefore(a: seq<InputRing.Event>, b: seq<InputRing.Event>)
    requires InputRing.Legal(a + b) && InputRing.NeverFull(a + b)
    ensures InputRing.Legal(a) && InputRing.NeverFull(a)
  {
    assert forall i :: 0 <= i < |a| ==> a[i] == (a + b)[i];
    assert forall k :: 0 <= k <= |a| ==> a[..k] == (a + b)[..k];
  }

  // ----- What the characters make the monitor do -----

  /** The characters of the line not yet ended, and the lines before it as they were typed. */
  datatype Shell = Shell(pending: seq<uint8>, lines: seq<seq<uint8>>)

  predicate AllTyped(lines: seq<seq<uint8>>) {
    forall i :: 0 <= i < |lines| ==> Readline.Typed(lines[i])
  }

  function LineOutcome(line: seq<int>): Monitor.Outcome
    requires Readline.Typed(line)
  {
    Monitor.Choose(Monitor.Split(Readline.EditAll(line)))
  }

  function Outcomes(lines: seq<seq<uint8>>): (r: seq<Monitor.Outcome>)
    requires AllTyped(lines)
    ensures |r| == |lines| && forall i :: 0 <= i < |r| ==> r[i] == LineOutcome(lines[i])
  {
    if lines == [] then [] else Outcomes(lines[..|lines| - 1]) + [LineOutcome(lines[|lines| - 1])]
  }

  /** Everything the monitor puts on the screen up to the end of these lines. */
  function SessionText(lines: seq<seq<uint8>>, symbols: Commands.Symbols): seq<int>
    requires AllTyped(lines)
  {
    if lines == [] then Messages.Speech(Commands.Opening())
    else SessionText(lines[..|lines| - 1], symbols) + Monitor.TurnText(lines[|lines| - 1], symbols)
  }

  function Hear(s: Shell, c: uint8): (r: Shell)
    requires Readline.Typed(s.pending) && AllTyped(s.lines)
    ensures Readline.Typed(r.pending) && AllTyped(r.lines)
  {
    if Readline.EndsLine(c) then Shell([], s.lines + [s.pending]) else s.(pending := s.pending + [c])
  }

  function HearAll(cs: seq<uint8>): (r: Shell)
    ensures Readline.Typed(r.pending) && AllTyped(r.lines)
  {
    if cs == [] then Shell([], []) else Hear(HearAll(cs[..|cs| - 1]), cs[|cs| - 1])
  }

  lemma {:induction false} HearTyped(cs: seq<uint8>, line: seq<uint8>)
    requires Readline.Typed(line)
    ensures HearAll(cs + line) == Shell(HearAll(cs).pending + line, HearAll(cs).lines)
    decreases |line|
  {
    if line == [] {
      assert cs + line == cs;
    } else {
      var init := line[..|line| - 1];
      assert (cs + line)[..|cs + line| - 1] == cs + init;
      HearTyped(cs, init);
      Assoc(HearAll(cs).pending, init, [line[|line| - 1]]);
    }
  }

  /** Characters that go on with a line, then one that ends it. */
  predicate WholeLine(input: seq<uint8>) {
    |input| > 0 && Readline.Typed(input[..|input| - 1]) && Readline.EndsLine(input[|input| - 1])
  }

  /** Characters that form a line add that line. */
  lemma HearLine(cs: seq<uint8>, line: seq<uint8>, last: uint8)
    requires HearAll(cs).pending == [] && last in {10, 13} && forall i :: 0 <= i < |line| ==> line[i] !in {10, 13}
    ensures HearAll(cs + (line + [last])) == Shell([], HearAll(cs).lines + [line])
  {
    HearTyped(cs, line);
    assert HearAll(cs).pending + line == line;
    Assoc(cs, line, [last]);
    HearOne(cs + line, last);
  }

  lemma HearWholeLine(cs: seq<uint8>, input: seq<uint8>)
    requires HearAll(cs).pending == [] && WholeLine(input)
    ensures HearAll(cs + input) == Shell([], HearAll(cs).lines + [input[..|input| - 1]])
  {
    assert input == input[..|input| - 1] + [input[|input| - 1]];
    HearLine(cs, input[..|input| - 1], input[|input| - 1]);
  }

  lemma HearOne(cs: seq<uint8>, c: uint8)
    ensures HearAll(cs + [c]) == Hear(HearAll(cs), c)
  {
    assert (cs + [c])[..|cs|] == cs;
  }

  /** Further characters add lines at the end. */
  lemma {:induction false} HearMore(cs: seq<uint8>, more: seq<uint8>)
    ensures HearAll(cs).lines <= HearAll(cs + more).lines
    decreases |more|
  {
    if more == [] {
      assert cs + more == cs;
    } else {
      var init := more[..|more| - 1];
      HearMore(cs, init);
      Assoc(cs, init, [more[|more| - 1]]);
      assert more == init + [more[|more| - 1]];
      HearOne(cs + init, more[|more| - 1]);
    }
  }

  /** What went before, and what the devices are about to answer. */
  datatype Setting = Setting(past: seq<InputRing.Event>, serialExists: bool, before: seq<uint8>, rounds: seq<Round>) {
    function Events(n: nat): seq<InputRing.Event>
      requires n <= |rounds|
    {
      past + Session(serialExists, before, rounds[..n])
    }

    /** The characters that the first `n` rounds answered. */
    function ReadBy(n: nat): seq<uint8>
      requires n <= |rounds|
    {
      ReadSince(past, Events(n))
    }

    /** From the start of the kernel, with nothing on the serial port. */
    ghost predicate KeysFromBoot() {
      past == [] && before == [] && (serialExists ==> forall i :: 0 <= i < |rounds| ==> rounds[i].serial == [])
    }
  }

  /** From scan bytes to commands: while the ring is never full, the characters that the monitor
      has read are a prefix of what the keys spell, and so are its lines and their outcomes; once
      it has caught up they are all of it. */
  lemma KeysToCommands(s: Setting)
    requires s.KeysFromBoot() && InputRing.Legal(s.Events(|s.rounds|)) && InputRing.NeverFull(s.Events(|s.rounds|))
    ensures var read, keys := s.ReadBy(|s.rounds|), KeyChars([], Scans(s.rounds));
            && read <= keys && HearAll(read).lines <= HearAll(keys).lines
            && Outcomes(HearAll(read).lines) <= Outcomes(HearAll(keys).lines)
            && (InputRing.Unread(s.Events(|s.rounds|)) == 0 ==> read == keys)
  {
    KeysRead(s);
    var read, keys := s.ReadBy(|s.rounds|), KeyChars([], Scans(s.rounds));
    HearMore(read, keys[|read|..]);
    assert read + keys[|read|..] == keys;
    OutcomesPrefix(HearAll(read).lines, HearAll(keys).lines);
  }

  lemma OutcomesPrefix(a: seq<seq<uint8>>, b: seq<seq<uint8>>)
    requires a <= b && AllTyped(a) && AllTyped(b)
    ensures Outcomes(a) <= Outcomes(b)
  {
    assert forall i :: 0 <= i < |a| ==> a[i] == b[i];
  }

  lemma KeysRead(s: Setting)
    requires s.KeysFromBoot() && InputRing.Legal(s.Events(|s.rounds|))
    ensures var t := InputRing.Play(s.Events(|s.rounds|));
            && s.ReadBy(|s.rounds|) == t.out && t.stream.fed == KeyChars([], Scans(s.rounds))
            && (InputRing.NeverFull(s.Events(|s.rounds|)) ==> t.out <= t.stream.fed)
  {
    assert s.rounds[..|s.rounds|] == s.rounds;
    InputRing.NothingLostIff(s.Events(|s.rounds|));
    KeyboardOnly(s.serialExists, [], s.rounds);
    SessionFeeds([], s.serialExists, [], s.rounds);
  }

  // ----- Calling often enough -----

  /** No round brings more than one character. */
  predicate OneAtATime(serialExists: bool, before: seq<uint8>, rounds: seq<Round>)
    decreases |rounds|
  {
    rounds == [] || (|RoundChars(serialExists, before, rounds[0])| <= 1
                     && OneAtATime(serialExists, before + rounds[0].scan, rounds[1..]))
  }

  /** The ring has never been full, and is empty. */
  ghost predicate CaughtUp(evs: seq<InputRing.Event>) {
    InputRing.Legal(evs) && InputRing.NeverFull(evs) && InputRing.Unread(evs) == 0
  }

  lemma ReadCatchesUp(evs: seq<InputRing.Event>, cs: seq<uint8>)
    requires CaughtUp(evs) && |cs| <= 1 && (cs != [] ==> cs[0] != 0)
    ensures CaughtUp(evs + (InputRing.Arrivals(cs) + [InputRing.Read]))
  {
    var mid := evs + InputRing.Arrivals(cs);
    InputRing.NothingLostIff(evs);
    InputRing.FeedIsPlay(evs, cs);
    if cs == [] {
      assert mid == evs;
    } else {
      assert cs[1..] == [] && mid[..|mid| - 1] == evs;
      InputRing.NeverFullAppend(mid);
    }
    InputRing.ReadIsPlay(mid);
    assert (mid + [InputRing.Read])[..|mid|] == mid;
    InputRing.ReadsInOrder(mid);
    InputRing.NeverFullAppend(mid + [InputRing.Read]);
    Assoc(evs, InputRing.Arrivals(cs), [InputRing.Read]);
  }

  lemma {:induction false} CharsNonzero(before: seq<uint8>, scan: seq<uint8>, serial: seq<uint8>)
    ensures forall i :: 0 <= i < |KeyChars(before, scan)| ==> KeyChars(before, scan)[i] != 0
    ensures forall i :: 0 <= i < |NonZero(serial)| ==> NonZero(serial)[i] != 0
  {
    KeysStored(before, scan);
    InputRing.StoredNonzero(KeyAnswers(before, scan));
    SerialStored(serial);
    InputRing.StoredNonzero(SerialAnswers(serial));
  }

  /** Called at least once per character, cons_getc keeps up: the ring is never full, whatever
      is typed and however long it goes on, and nothing is left waiting. */
  lemma {:induction false} NothingLostOneAtATime(evs: seq<InputRing.Event>, serialExists: bool, before: seq<uint8>,
                                                 rounds: seq<Round>)
    requires CaughtUp(evs) && OneAtATime(serialExists, before, rounds)
    ensures CaughtUp(evs + Session(serialExists, before, rounds))
    decreases |rounds|
  {
    if rounds == [] {
      assert evs + [] == evs;
    } else {
      var here := before + rounds[0].scan;
      CharsNonzero(before, rounds[0].scan, rounds[0].serial);
      ReadCatchesUp(evs, RoundChars(serialExists, before, rounds[0]));
      NothingLostOneAtATime(evs + RoundEvents(serialExists, before, rounds[0]), serialExists, here, rounds[1..]);
      Assoc(evs, RoundEvents(serialExists, before, rounds[0]), Session(serialExists, here, rounds[1..]));
    }
  }

  // ----- Typing without modifiers -----

  /** Keys pressed and released one after the other. */
  function Strokes(keys: seq<uint8>): seq<uint8>
    requires forall i :: 0 <= i < |keys| ==> keys[i] < 0x80
  {
    if keys == [] then [] else [keys[0], keys[0] + 0x80] + Strokes(keys[1..])
  }

  /** Keys with a legend. */
  predicate ArePlain(keys: seq<uint8>) {
    forall i :: 0 <= i < |keys| ==> keys[i] < 0x60 && Keycaps.Small(keys[i]) != 0
  }

  function Legends(keys: seq<uint8>): seq<uint8> {
    if keys == [] then [] else [Keycaps.Small(keys[0])] + Legends(keys[1..])
  }

  lemma OneStroke(before: seq<uint8>, key: uint8)
    requires Keyboard.State(before) == 0 && key < 0x60 && Keycaps.Small(key) != 0
    ensures Keyboard.State(before + [key]) == 0 && Keyboard.State(before + [key] + [key + 0x80]) == 0
    ensures Keyboard.CharFor(0, key) == Keycaps.Small(key) && Keyboard.CharFor(0, key + 0x80) == 0
  {
    Keycaps.FromRest(key);
    Keyboard.StateAppend(before, key);
    Released(before + [key], key);
  }

  lemma Released(before: seq<uint8>, key: uint8)
    requires Keyboard.State(before) == 0 && key < 0x60
    ensures Keyboard.State(before + [key + 0x80]) == 0 && Keyboard.CharFor(0, key + 0x80) == 0
  {
    Keyboard.StateAppend(before, key + 0x80);
    ReleaseFromRest(key + 0x80);
  }

  lemma ReleaseFromRest(data: uint8)
    requires 0x80 <= data < 0xE0
    ensures Keyboard.Step(0, data) == 0 && Keyboard.CharFor(0, data) == 0
  {
  }

  /** From rest, keys pressed one after the other type their legends. */
  lemma {:induction false} StrokesTypeLegends(before: seq<uint8>, keys: seq<uint8>)
    requires Keyboard.State(before) == 0 && ArePlain(keys)
    ensures KeyChars(before, Strokes(keys)) == Legends(keys)
    decreases |keys|
  {
    if keys != [] {
      var k, rest := keys[0], Strokes(keys[1..]);
      OneStroke(before, k);
      var after := before + [k] + [k + 0x80];
      StrokesTypeLegends(after, keys[1..]);
      StrokeChars(before, k, rest);
    }
  }

  lemma StrokeChars(before: seq<uint8>, k: uint8, rest: seq<uint8>)
    requires Keyboard.State(before) == 0 && k < 0x60 && Keycaps.Small(k) != 0
    ensures KeyChars(before, [k, k + 0x80] + rest)
            == [Keycaps.Small(k)] + KeyChars(before + [k] + [k + 0x80], rest)
  {
    OneStroke(before, k);
    var scan := [k, k + 0x80] + rest;
    assert scan[1..] == [k + 0x80] + rest && scan[1..][1..] == rest;
  }

  /** From the keys h, e, l, p and Enter to the command: help runs. */
  lemma HelpRuns(keys: seq<uint8>, line: seq<uint8>)
    requires keys == [0x23, 0x12, 0x26, 0x19, 0x1C] && line == [104, 101, 108, 112]
    ensures ArePlain(keys)
    ensures KeyChars([], Strokes(keys)) == line + [10]
    ensures HearAll(line + [10]) == Shell([], [line])
    ensures Readline.Typed(line) && LineOutcome(line) == Monitor.Dispatched(0)
  {
    HelpLegends(keys);
    StrokesTypeLegends([], keys);
    HelpHeard(line);
    HelpChosen(line);
  }

  lemma HelpHeard(line: seq<uint8>)
    requires line == [104, 101, 108, 112]
    ensures HearAll(line + [10]) == Shell([], [line])
  {
    HearLine([], line, 10);
    assert [] + (line + [10]) == line + [10] && [] + [line] == [line];
  }

  lemma HelpChosen(line: seq<uint8>)
    requires line == [104, 101, 108, 112]
    ensures Readline.Typed(line) && LineOutcome(line) == Monitor.Dispatched(0)
  {
    Readline.PlainLineIsItself(line);
    Monitor.SplitWord(line);
    Monitor.ChooseMeans([line]);
  }

  lemma HelpLegends(keys: seq<uint8>)
    requires keys == [0x23, 0x12, 0x26, 0x19, 0x1C]
    ensures ArePlain(keys) && Legends(keys) == [104, 101, 108, 112] + [10]
  {
    HelpKeys();
    var a, b, c, d := keys[1..], keys[2..], keys[3..], keys[4..];
    LegendsCons(0x1C, 10, d[1..]);
    LegendsCons(0x19, 112, d);
    LegendsCons(0x26, 108, c);
    LegendsCons(0x12, 101, b);
    LegendsCons(0x23, 104, a);
  }

  lemma HelpKeys()
    ensures Keycaps.Small(0x23) == 104 && Keycaps.Small(0x12) == 101 && Keycaps.Small(0x26) == 108
    ensures Keycaps.Small(0x19) == 112 && Keycaps.Small(0x1C) == 10
  {
  }

  lemma LegendsCons(key: uint8, c: uint8, keys: seq<uint8>)
    requires Keycaps.Small(key) == c
    ensures Legends([key] + keys) == [c] + Legends(keys)
  {
    assert ([key] + keys)[1..] == keys;
  }

  // ----- What the session looks like -----

  /** A session as one reads it: the welcome, and turn after turn. */
  lemma SessionReads(lines: seq<seq<uint8>>, line: seq<uint8>, symbols: Commands.Symbols)
    requires AllTyped(lines) && |line| <= 1023 && forall i :: 0 <= i < |line| ==> Readline.Stored(line[i])
    ensures SessionText([], symbols) == Format.Chars("Welcome to the JOS kernel monitor!\n")
                                        + Format.Chars("Type 'help' for a list of commands.\n")
    ensures AllTyped(lines + [line])
    ensures SessionText(lines + [line], symbols)
            == SessionText(lines, symbols)
               + (Format.Chars("K> ") + line + [10] + Messages.Speech(Monitor.Reply(Monitor.Split(line), symbols)))
  {
    Commands.OpeningReads();
    Monitor.TurnReads(line, line, symbols);
    assert (lines + [line])[..|lines|] == lines;
  }

  lemma {:induction false} SessionIsNeverDropped(t: Terminal.Term, lines: seq<seq<uint8>>, symbols: Commands.Symbols)
    requires t.Valid() && AllTyped(lines)
    ensures Terminal.NothingDropped(t, SessionText(lines, symbols))
    decreases |lines|
  {
    if lines == [] {
      Messages.SpeechHasNoBackspace(Commands.Opening());
      Terminal.PlainTextIsNeverDropped(t, SessionText(lines, symbols));
    } else {
      var init, last := lines[..|lines| - 1], lines[|lines| - 1];
      var u := Terminal.TypeAll(t, SessionText(init, symbols));
      SessionIsNeverDropped(t, init, symbols);
      Monitor.TurnIsNeverDropped(u, last, symbols);
      Terminal.NothingDroppedAppend(t, SessionText(init, symbols), Monitor.TurnText(last, symbols));
    }
  }

  /** Over every session the screen is the last 25 lines of the unbounded page that the prompts,
      the echoed lines with their corrections, and the replies would fill. */
  lemma SessionShowsPage(t: Terminal.Term, p: Terminal.Page, lines: seq<seq<uint8>>, symbols: Commands.Symbols)
    requires t.Valid() && Terminal.Shows(t, p) && AllTyped(lines)
    ensures var u := Terminal.TypeAll(t, SessionText(lines, symbols));
            var q := Terminal.InkAll(p, SessionText(lines, symbols));
            && Terminal.Shows(u, q)
            && forall i :: 0 <= i < Terminal.CRT_SIZE ==>
                 u.Window()[i] == Terminal.CellAt(q.cells, Terminal.CRT_COLS * u.top + i)
  {
    SessionIsNeverDropped(t, lines, symbols);
    Terminal.WindowShowsPage(t, p, SessionText(lines, symbols));
  }

  // ----- The code -----

  method PollByte(kbd: Keyboard.Controller, scan: seq<uint8>, i: nat, ghost before: seq<uint8>, ghost answers: seq<int>)
    returns (c: int)
    requires kbd.Valid() && i < |scan| && kbd.bytes == before + scan[..i]
    requires answers + KeyAnswers(kbd.bytes, scan[i..]) == KeyAnswers(before, scan)
    modifies kbd
    ensures kbd.Valid() && kbd.bytes == before + scan[..i + 1]
    ensures answers + [c] + KeyAnswers(kbd.bytes, scan[i + 1..]) == KeyAnswers(before, scan)
  {
    ghost var rest := scan[i..];
    c := kbd.KbdProcData(Keyboard.KBS_DIB, scan[i]);
    Assoc(answers, [c], KeyAnswers(kbd.bytes, scan[i + 1..]));
    assert rest[0] == scan[i] && rest[1..] == scan[i + 1..];
  }

  /** The answers of kbd_proc_data, up to the -1 that ends cons_intr. */
  method PollKeyboard(kbd: Keyboard.Controller, scan: seq<uint8>) returns (answers: seq<int>)
    requires kbd.Valid()
    modifies kbd
    ensures kbd.Valid() && kbd.bytes == old(kbd.bytes) + scan && answers == KeyAnswers(old(kbd.bytes), scan)
  {
    ghost var before := kbd.bytes;
    answers := [];
    var i := 0;
    while i < |scan|
      invariant 0 <= i <= |scan| && kbd.Valid() && kbd.bytes == before + scan[..i]
      invariant answers + KeyAnswers(kbd.bytes, scan[i..]) == KeyAnswers(before, scan)
    {
      var c := PollByte(kbd, scan, i, before, answers);
      answers := answers + [c];
      i := i + 1;
    }
    var c := kbd.KbdProcData(0, 0);
    answers := answers + [c];
  }

  /** The ring and the keyboard after the first `n` rounds, on top of the past. */
  ghost predicate At(ring: InputRing.Ring, kbd: Keyboard.Controller, s: Setting, n: nat)
    reads ring, ring.buf, kbd
  {
    && n <= |s.rounds| && ring.Valid() && kbd.Valid()
    && kbd.bytes == s.before + Scans(s.rounds[..n])
    && InputRing.Legal(s.Events(n)) && ring.stream == InputRing.Play(s.Events(n)).stream
  }

  /** One call of cons_getc. */
  method Getc(ring: InputRing.Ring, kbd: Keyboard.Controller, serialExists: bool, r: Round, ghost s: Setting,
              ghost n: nat)
    returns (c: int)
    requires At(ring, kbd, s, n) && n < |s.rounds| && r == s.rounds[n] && serialExists == s.serialExists
    modifies ring, ring.buf, kbd
    ensures At(ring, kbd, s, n + 1) && 0 <= c <= 0xFF
    ensures s.ReadBy(n + 1) == s.ReadBy(n) + (if c == 0 then [] else [c])
  {
    var keyboard := PollKeyboard(kbd, r.scan);
    GetcStep(s, n);
    c := ring.ConsGetc(serialExists, SerialAnswers(r.serial), keyboard);
  }

  lemma GetcStep(s: Setting, n: nat)
    requires n < |s.rounds| && InputRing.Legal(s.Events(n))
    ensures var here := s.before + Scans(s.rounds[..n]);
            var serial, keyboard := SerialAnswers(s.rounds[n].serial), KeyAnswers(here, s.rounds[n].scan);
            && InputRing.Polled(serial) && InputRing.Polled(keyboard)
            && s.before + Scans(s.rounds[..n + 1]) == here + s.rounds[n].scan
            && InputRing.Legal(s.Events(n + 1))
            && var t := InputRing.PollOnce(InputRing.Play(s.Events(n)).stream, s.serialExists, serial, keyboard);
               && InputRing.Play(s.Events(n + 1)).stream == InputRing.Advance(t)
               && s.ReadBy(n + 1) == s.ReadBy(n) + (if InputRing.Next(t) == 0 then [] else [InputRing.Next(t)])
  {
    var here := s.before + Scans(s.rounds[..n]);
    var serial, keyboard := SerialAnswers(s.rounds[n].serial), KeyAnswers(here, s.rounds[n].scan);
    SerialStored(s.rounds[n].serial);
    KeysStored(here, s.rounds[n].scan);
    NextEvents(s, n);
    InputRing.GetcIsPlay(s.Events(n), s.serialExists, serial, keyboard);
    var t := InputRing.PollOnce(InputRing.Play(s.Events(n)).stream, s.serialExists, serial, keyboard);
    ReadNext(s, n, if InputRing.Next(t) == 0 then [] else [InputRing.Next(t)]);
  }

  lemma ReadNext(s: Setting, n: nat, more: seq<uint8>)
    requires n < |s.rounds|
    requires InputRing.Play(s.Events(n + 1)).out == InputRing.Play(s.Events(n)).out + more
    ensures s.ReadBy(n + 1) == s.ReadBy(n) + more
  {
    ReadMore(s, n);
    TailAppend(InputRing.Play(s.past).out, InputRing.Play(s.Events(n)).out, InputRing.Play(s.Events(n + 1)).out, more);
  }

  lemma TailAppend(head: seq<uint8>, a: seq<uint8>, b: seq<uint8>, more: seq<uint8>)
    requires head <= a && head <= b && b == a + more
    ensures b[|head|..] == a[|head|..] + more
  {
  }

  lemma NextEvents(s: Setting, n: nat)
    requires n < |s.rounds|
    ensures var here := s.before + Scans(s.rounds[..n]);
            && s.before + Scans(s.rounds[..n + 1]) == here + s.rounds[n].scan
            && s.Events(n + 1) == s.Events(n) + InputRing.Arrivals(RoundChars(s.serialExists, here, s.rounds[n]))
                                  + [InputRing.Read]
  {
    var here := s.before + Scans(s.rounds[..n]);
    var cs := InputRing.Arrivals(RoundChars(s.serialExists, here, s.rounds[n]));
    assert s.rounds[..n + 1] == s.rounds[..n] + [s.rounds[n]];
    SessionAppend(s.serialExists, s.before, s.rounds[..n], s.rounds[n]);
    Assoc(s.before, Scans(s.rounds[..n]), s.rounds[n].scan);
    Assoc(s.past, Session(s.serialExists, s.before, s.rounds[..n]), cs + [InputRing.Read]);
    Assoc(s.Events(n), cs, [InputRing.Read]);
  }

  lemma ReadMore(s: Setting, n: nat)
    requires n < |s.rounds|
    ensures InputRing.Play(s.past).out <= InputRing.Play(s.Events(n)).out
    ensures InputRing.Play(s.past).out <= InputRing.Play(s.Events(n + 1)).out
  {
    InputRing.PlayGrows(s.past, Session(s.serialExists, s.before, s.rounds[..n]));
    InputRing.PlayGrows(s.past, Session(s.serialExists, s.before, s.rounds[..n + 1]));
  }

  lemma OneMoreTyped(input: seq<uint8>, c: uint8)
    requires Readline.Typed(input)
    ensures if Readline.EndsLine(c) then WholeLine(input + [c]) else Readline.Typed(input + [c])
  {
    assert (input + [c])[..|input|] == input;
  }

  /** What getchar returns one after the other, up to a character that ends the line or the
      end of the rounds. */
  method TypedLine(ring: InputRing.Ring, kbd: Keyboard.Controller, serialExists: bool, rounds: seq<Round>, n0: nat,
                   ghost s: Setting)
    returns (input: seq<uint8>, n: nat, whole: bool)
    requires At(ring, kbd, s, n0) && rounds == s.rounds && serialExists == s.serialExists
    modifies ring, ring.buf, kbd
    ensures n0 <= n && At(ring, kbd, s, n) && s.ReadBy(n) == s.ReadBy(n0) + input
    ensures if whole then WholeLine(input) && n0 < n else Readline.Typed(input) && n == |rounds|
  {
    input, n, whole := [], n0, false;
    while n < |rounds|
      invariant n0 <= n && At(ring, kbd, s, n) && s.ReadBy(n) == s.ReadBy(n0) + input
      invariant Readline.Typed(input)
      decreases |rounds| - n
    {
      input, whole := NextCharacter(ring, kbd, serialExists, rounds[n], s, n0, n, input);
      n := n + 1;
      if whole {
        return;
      }
    }
  }

  /** One call of cons_getc from within getchar. */
  method NextCharacter(ring: InputRing.Ring, kbd: Keyboard.Controller, serialExists: bool, r: Round, ghost s: Setting,
                       ghost n0: nat, ghost n: nat, input: seq<uint8>)
    returns (more: seq<uint8>, whole: bool)
    requires n0 <= n && At(ring, kbd, s, n) && n < |s.rounds| && r == s.rounds[n] && serialExists == s.serialExists
    requires s.ReadBy(n) == s.ReadBy(n0) + input && Readline.Typed(input)
    modifies ring, ring.buf, kbd
    ensures At(ring, kbd, s, n + 1) && s.ReadBy(n + 1) == s.ReadBy(n0) + more
    ensures if whole then WholeLine(more) else Readline.Typed(more)
  {
    var c := Getc(ring, kbd, serialExists, r, s, n);
    if c == 0 {
      return input, false;
    }
    more := Appended(s.ReadBy(n0), input, c);
    whole := c == 10 || c == 13;
  }

  /** One more character of the line. */
  method Appended(ghost read: seq<uint8>, input: seq<uint8>, c: uint8) returns (more: seq<uint8>)
    requires Readline.Typed(input)
    ensures more == input + [c] && read + input + [c] == read + more
    ensures if c == 10 || c == 13 then WholeLine(more) else Readline.Typed(more)
  {
    Assoc(read, input, [c]);
    OneMoreTyped(input, c);
    more := input + [c];
  }

  /** The monitor over all the rounds: it runs exactly the commands that the characters
      returned by getchar select, line by line, and the screen shows that session. */
  method RunMonitor(console: Screen.Console, symbols: Commands.Symbols, buf: array<uint8>, ring: InputRing.Ring,
                    kbd: Keyboard.Controller, serialExists: bool, rounds: seq<Round>,
                    ghost past: seq<InputRing.Event>)
    returns (outcomes: seq<Monitor.Outcome>)
    requires console.Valid() && buf.Length == Readline.BUFLEN && buf[Readline.BUFLEN - 1] == 0
    requires buf != console.crtBuf && ring.buf != buf && ring.buf != console.crtBuf
    requires ring.Valid() && kbd.Valid() && InputRing.Legal(past) && ring.stream == InputRing.Play(past).stream
    modifies console, console.crtBuf, buf, ring, ring.buf, kbd
    ensures var s := Setting(past, serialExists, old(kbd.bytes), rounds);
            var lines := HearAll(s.ReadBy(|rounds|)).lines;
            && At(ring, kbd, s, |rounds|) && outcomes == Outcomes(lines)
            && console.term == Terminal.TypeAll(old(console.term), SessionText(lines, symbols))
    ensures console.Valid() && buf[Readline.BUFLEN - 1] == 0
  {
    ghost var s, t := Setting(past, serialExists, kbd.bytes, rounds), console.term;
    ghost var lines: seq<seq<uint8>> := [];
    outcomes := [];
    var n := 0;
    NothingReadYet(s);
    Commands.Welcome(console);
    while true
      invariant At(ring, kbd, s, n) && HearAll(s.ReadBy(n)) == Shell([], lines)
      invariant AllTyped(lines) && outcomes == Outcomes(lines) && OnScreen(console, t, lines, symbols)
      invariant buf[Readline.BUFLEN - 1] == 0
      decreases |rounds| - n
    {
      ghost var heard := s.ReadBy(n);
      var input, whole;
      input, n, whole := TypedLine(ring, kbd, serialExists, rounds, n, s);
      if !whole {
        HearTyped(heard, input);
        return;
      }
      var code, o := Answer(console, symbols, buf, input, t, lines, heard, ring, kbd, s, n);
      lines, outcomes := HearAll(s.ReadBy(n)).lines, outcomes + [o];
      if code < 0 {
        break;
      }
    }
  }

  ghost predicate OnScreen(console: Screen.Console, t: Terminal.Term, lines: seq<seq<uint8>>, symbols: Commands.Symbols)
    reads console, console.crtBuf
    requires AllTyped(lines)
  {
    console.Valid() && t.Valid() && console.term == Terminal.TypeAll(t, SessionText(lines, symbols))
  }

  lemma NothingReadYet(s: Setting)
    ensures s.Events(0) == s.past && s.ReadBy(0) == []
  {
  }

  /** The turn leaves ring and keyboard alone. */
  method Answer(console: Screen.Console, symbols: Commands.Symbols, buf: array<uint8>, input: seq<uint8>,
                ghost t: Terminal.Term, ghost lines: seq<seq<uint8>>, ghost heard: seq<uint8>,
                ghost ring: InputRing.Ring, ghost kbd: Keyboard.Controller, ghost s: Setting, ghost n: nat)
    returns (code: int, outcome: Monitor.Outcome)
    requires At(ring, kbd, s, n) && s.ReadBy(n) == heard + input
    requires AllTyped(lines) && OnScreen(console, t, lines, symbols) && HearAll(heard) == Shell([], lines)
    requires buf.Length == Readline.BUFLEN && buf[Readline.BUFLEN - 1] == 0 && WholeLine(input)
    requires buf != console.crtBuf && ring.buf != buf && ring.buf != console.crtBuf
    modifies console, console.crtBuf, buf
    ensures At(ring, kbd, s, n) && code == 0 && buf[Readline.BUFLEN - 1] == 0 && HearAll(s.ReadBy(n)).pending == []
    ensures OnScreen(console, t, HearAll(s.ReadBy(n)).lines, symbols)
    ensures Outcomes(HearAll(s.ReadBy(n)).lines) == Outcomes(lines) + [outcome]
  {
    code, outcome := LineTurn(console, symbols, buf, input, t, lines, heard);
  }

  /** A turn of the monitor on a whole line: getchar returns no errors, so there is an outcome. */
  method LineTurn(console: Screen.Console, symbols: Commands.Symbols, buf: array<uint8>, input: seq<uint8>,
                  ghost t: Terminal.Term, ghost lines: seq<seq<uint8>>, ghost heard: seq<uint8>)
    returns (code: int, outcome: Monitor.Outcome)
    requires AllTyped(lines) && OnScreen(console, t, lines, symbols) && HearAll(heard) == Shell([], lines)
    requires buf.Length == Readline.BUFLEN && buf != console.crtBuf && buf[Readline.BUFLEN - 1] == 0
    requires WholeLine(input)
    modifies console, console.crtBuf, buf
    ensures code == 0 && buf[Readline.BUFLEN - 1] == 0 && HearAll(heard + input).pending == []
    ensures OnScreen(console, t, HearAll(heard + input).lines, symbols)
    ensures Outcomes(HearAll(heard + input).lines) == Outcomes(lines) + [outcome]
  {
    HearWholeLine(heard, input);
    WholeLineEnd(input);
    NextTurn(t, lines, input[..|input| - 1], symbols);
    var o, used;
    code, o, used := Monitor.Turn(console, symbols, input, buf);
    outcome := o.value;
  }

  /** Readline stops at the end of a whole line. */
  lemma WholeLineEnd(input: seq<uint8>)
    requires WholeLine(input)
    ensures Readline.Deliverable(input) && Readline.LineEnd(input, 0) == |input| - 1
  {
    var line := input[..|input| - 1];
    assert forall k :: 0 <= k < |line| ==> line[k] == input[k];
  }

  lemma NextTurn(t: Terminal.Term, lines: seq<seq<uint8>>, line: seq<uint8>, symbols: Commands.Symbols)
    requires t.Valid() && AllTyped(lines) && Readline.Typed(line)
    ensures AllTyped(lines + [line])
    ensures Outcomes(lines + [line]) == Outcomes(lines) + [LineOutcome(line)]
    ensures Terminal.TypeAll(t, SessionText(lines + [line], symbols))
            == Terminal.TypeAll(Terminal.TypeAll(t, SessionText(lines, symbols)), Monitor.TurnText(line, symbols))
  {
    assert (lines + [line])[..|lines|] == lines;
    Terminal.TypeAllAppend(t, SessionText(lines, symbols), Monitor.TurnText(line, symbols));
  }
}
