/** What each key of the keyboard types, told by what is printed on it. */
module Keycaps {
  import opened Machine
  import opened Keyboard

  /** The two legends of a key, by scan code. */
  function Legend(key: uint8): Option<(char, char)> {
    match key
    case 0x01 => Some(('\U{1B}', '\U{1B}'))
    case 0x02 => Some(('1', '!'))
    case 0x03 => Some(('2', '@'))
    case 0x04 => Some(('3', '#'))
    case 0x05 => Some(('4', '$'))
    case 0x06 => Some(('5', '%'))
    case 0x07 => Some(('6', '^'))
    case 0x08 => Some(('7', '&'))
    case 0x09 => Some(('8', '*'))
    case 0x0A => Some(('9', '('))
    case 0x0B => Some(('0', ')'))
    case 0x0C => Some(('-', '_'))
    case 0x0D => Some(('=', '+'))
    case 0x0E => Some(('\U{08}', '\U{08}'))
    case 0x0F => Some(('\t', '\t'))
    case 0x10 => Some(('q', 'Q'))
    case 0x11 => Some(('w', 'W'))
    case 0x12 => Some(('e', 'E'))
    case 0x13 => Some(('r', 'R'))
    case 0x14 => Some(('t', 'T'))
    case 0x15 => Some(('y', 'Y'))
    case 0x16 => Some(('u', 'U'))
    case 0x17 => Some(('i', 'I'))
    case 0x18 => Some(('o', 'O'))
    case 0x19 => Some(('p', 'P'))
    case 0x1A => Some(('[', '{'))
    case 0x1B => Some((']', '}'))
    case 0x1C => Some(('\n', '\n'))
    case 0x1E => Some(('a', 'A'))
    case 0x1F => Some(('s', 'S'))
    case 0x20 => Some(('d', 'D'))
    case 0x21 => Some(('f', 'F'))
    case 0x22 => Some(('g', 'G'))
    case 0x23 => Some(('h', 'H'))
    case 0x24 => Some(('j', 'J'))
    case 0x25 => Some(('k', 'K'))
    case 0x26 => Some(('l', 'L'))
    case 0x27 => Some((';', ':'))
    case 0x28 => Some(('\'', '"'))
    case 0x29 => Some(('`', '~'))
    case 0x2B => Some(('\\', '|'))
    case 0x2C => Some(('z', 'Z'))
    case 0x2D => Some(('x', 'X'))
    case 0x2E => Some(('c', 'C'))
    case 0x2F => Some(('v', 'V'))
    case 0x30 => Some(('b', 'B'))
    case 0x31 => Some(('n', 'N'))
    case 0x32 => Some(('m', 'M'))
    case 0x33 => Some((',', '<'))
    case 0x34 => Some(('.', '>'))
    case 0x35 => Some(('/', '?'))
    case 0x37 => Some(('*', '*'))
    case 0x39 => Some((' ', ' '))
    case 0x47 => Some(('7', '7'))
    case 0x48 => Some(('8', '8'))
    case 0x49 => Some(('9', '9'))
    case 0x4A => Some(('-', '-'))
    case 0x4B => Some(('4', '4'))
    case 0x4C => Some(('5', '5'))
    case 0x4D => Some(('6', '6'))
    case 0x4E => Some(('+', '+'))
    case 0x4F => Some(('1', '1'))
    case 0x50 => Some(('2', '2'))
    case 0x51 => Some(('3', '3'))
    case 0x52 => Some(('0', '0'))
    case 0x53 => Some(('.', '.'))
    case _ => None
  }

  /** With control: letters and the backslash give their control codes, Enter a carriage
      return, the slash 0xEF, and no other key anything. */
  function ControlOf(key: uint8): uint8 {
    match Legend(key)
    case None => 0
    case Some((n, _)) =>
      if 'a' <= n <= 'z' then (n as int) - 96
      else if n == '\\' then 28
      else if n == '\n' then 13
      else if key == 0x35 then 0xEF
      else 0
  }

  /** A key's entries in the three maps. */
  ghost predicate Entry(key: uint8) {
    && PlainMap(NORMAL, key) == (match Legend(key) case None => 0 case Some((n, _)) => n as int)
    && PlainMap(SHIFTED, key) == (match Legend(key) case None => 0 case Some((_, s)) => s as int)
    && CtlMap(key) == ControlOf(key)
  }

  lemma Keys00(key: uint8)
    requires 0x00 <= key <= 0x03
    ensures Entry(key)
  {
  }

  lemma Keys04(key: uint8)
    requires 0x04 <= key <= 0x07
    ensures Entry(key)
  {
  }

  lemma Keys08(key: uint8)
    requires 0x08 <= key <= 0x0B
    ensures Entry(key)
  {
  }

  lemma Keys0C(key: uint8)
    requires 0x0C <= key <= 0x0F
    ensures Entry(key)
  {
  }

  lemma Keys10(key: uint8)
    requires 0x10 <= key <= 0x13
    ensures Entry(key)
  {
  }

  lemma Keys14(key: uint8)
    requires 0x14 <= key <= 0x17
    ensures Entry(key)
  {
  }

  lemma Keys18(key: uint8)
    requires 0x18 <= key <= 0x1B
    ensures Entry(key)
  {
  }

  lemma Keys1C(key: uint8)
    requires 0x1C <= key <= 0x1F
    ensures Entry(key)
  {
  }

  lemma Keys20(key: uint8)
    requires 0x20 <= key <= 0x23
    ensures Entry(key)
  {
  }

  lemma Keys24(key: uint8)
    requires 0x24 <= key <= 0x27
    ensures Entry(key)
  {
  }

  lemma Keys28(key: uint8)
    requires 0x28 <= key <= 0x2B
    ensures Entry(key)
  {
  }

  lemma Keys2C(key: uint8)
    requires 0x2C <= key <= 0x2F
    ensures Entry(key)
  {
  }

  lemma Keys30(key: uint8)
    requires 0x30 <= key <= 0x33
    ensures Entry(key)
  {
  }

  lemma Keys34(key: uint8)
    requires 0x34 <= key <= 0x37
    ensures Entry(key)
  {
  }

  lemma Keys38(key: uint8)
    requires 0x38 <= key <= 0x3B
    ensures Entry(key)
  {
  }

  lemma Keys3C(key: uint8)
    requires 0x3C <= key <= 0x3F
    ensures Entry(key)
  {
  }

  lemma Keys40(key: uint8)
    requires 0x40 <= key <= 0x43
    ensures Entry(key)
  {
  }

  lemma Keys44(key: uint8)
    requires 0x44 <= key <= 0x47
    ensures Entry(key)
  {
  }

  lemma Keys48(key: uint8)
    requires 0x48 <= key <= 0x4B
    ensures Entry(key)
  {
  }

  lemma Keys4C(key: uint8)
    requires 0x4C <= key <= 0x4F
    ensures Entry(key)
  {
  }

  lemma Keys50(key: uint8)
    requires 0x50 <= key <= 0x53
    ensures Entry(key)
  {
  }

  lemma Keys54(key: uint8)
    requires 0x54 <= key <= 0x5F
    ensures Entry(key)
  {
  }

  lemma Keys60(key: uint8)
    requires 0x60 <= key <= 0x7F
    ensures Entry(key)
  {
  }

  /** The maps hold the legends. */
  lemma AllKeys(key: uint8)
    requires key < 0x80
    ensures Entry(key)
  {
    if key < 0x04 {
      Keys00(key);
    } else if key < 0x08 {
      Keys04(key);
    } else if key < 0x0C {
      Keys08(key);
    } else if key < 0x10 {
      Keys0C(key);
    } else if key < 0x14 {
      Keys10(key);
    } else if key < 0x18 {
      Keys14(key);
    } else if key < 0x1C {
      Keys18(key);
    } else if key < 0x20 {
      Keys1C(key);
    } else if key < 0x24 {
      Keys20(key);
    } else if key < 0x28 {
      Keys24(key);
    } else if key < 0x2C {
      Keys28(key);
    } else if key < 0x30 {
      Keys2C(key);
    } else if key < 0x34 {
      Keys30(key);
    } else if key < 0x38 {
      Keys34(key);
    } else if key < 0x3C {
      Keys38(key);
    } else if key < 0x40 {
      Keys3C(key);
    } else if key < 0x44 {
      Keys40(key);
    } else if key < 0x48 {
      Keys44(key);
    } else if key < 0x4C {
      Keys48(key);
    } else if key < 0x50 {
      Keys4C(key);
    } else if key < 0x54 {
      Keys50(key);
    } else if key < 0x60 {
      Keys54(key);
    } else {
      Keys60(key);
    }
  }

  /** What a key behind the prefix byte types: those between keyboard and keypad, and the
      keypad's Enter and slash. */
  function Extended(data: uint8, control: bool): uint8 {
    match data
    case 0x17 => if control then 0xE0 else 0
    case 0x1C => if control then 0 else 10
    case 0x35 => if control then 0xEF else 47
    case 0x47 => if control then 0 else 0xE0
    case 0x48 => 0xE2
    case 0x49 => 0xE6
    case 0x4B => 0xE4
    case 0x4D => 0xE5
    case 0x4F => 0xE1
    case 0x50 => 0xE3
    case 0x51 => 0xE7
    case 0x52 => 0xE8
    case 0x53 => 0xE9
    case _ => 0
  }

  lemma ExtendedKeys(data: uint8)
    requires data < 0x80
    ensures PlainMap(NORMAL, data + 0x80) == PlainMap(SHIFTED, data + 0x80) == Extended(data, false)
    ensures CtlMap(data + 0x80) == Extended(data, true)
  {
  }

  // ----- Modifiers by key -----

  /** The last event on one of these keys was a press. */
  ghost predicate LastPressed(evs: seq<KeyEvent>, keys: set<uint8>) {
    exists i :: 0 <= i < |evs| && evs[i].Press? && evs[i].key in keys
                && forall j :: i < j < |evs| ==> evs[j].key !in keys
  }

  function PressCount(evs: seq<KeyEvent>, key: uint8): nat {
    if evs == [] then 0
    else PressCount(evs[..|evs| - 1], key) + if evs[|evs| - 1] == Press(key) then 1 else 0
  }

  lemma HeldByKey(evs: seq<KeyEvent>, bit: bv8, keys: set<uint8>)
    requires forall k: uint8 :: k in keys <==> ShiftCode(k) == bit
    ensures Held(evs, bit) <==> LastPressed(evs, keys)
  {
    if Held(evs, bit) {
      var i :| LastPress(evs, i, bit);
      assert evs[i].key in keys;
    }
    if LastPressed(evs, keys) {
      var i :| 0 <= i < |evs| && evs[i].Press? && evs[i].key in keys
               && forall j :: i < j < |evs| ==> evs[j].key !in keys;
      assert LastPress(evs, i, bit);
    }
  }

  lemma {:induction false} PressesByKey(evs: seq<KeyEvent>, bit: bv8, key: uint8)
    requires forall k: uint8 :: k == key <==> ToggleCode(k) == bit
    ensures Presses(evs, bit) == PressCount(evs, key)
  {
    if evs != [] {
      PressesByKey(evs[..|evs| - 1], bit, key);
    }
  }

  ghost predicate ShiftHeld(bytes: seq<uint8>) {
    LastPressed(Decode(bytes), {0x2A, 0x36})
  }

  ghost predicate ControlHeld(bytes: seq<uint8>) {
    LastPressed(Decode(bytes), {0x1D, 0x9D})
  }

  ghost predicate AltHeld(bytes: seq<uint8>) {
    LastPressed(Decode(bytes), {0x38, 0xB8})
  }

  ghost predicate CapsLocked(bytes: seq<uint8>) {
    PressCount(Decode(bytes), 0x3A) % 2 == 1
  }

  /** The state by the keys themselves: both shift keys, both control keys, both alt keys, and
      the three locks. */
  lemma StateByKey(bytes: seq<uint8>)
    ensures State(bytes) & 0x01 != 0 <==> ShiftHeld(bytes)
    ensures State(bytes) & 0x02 != 0 <==> ControlHeld(bytes)
    ensures State(bytes) & 0x04 != 0 <==> AltHeld(bytes)
    ensures State(bytes) & 0x08 != 0 <==> CapsLocked(bytes)
    ensures State(bytes) & 0x10 != 0 <==> PressCount(Decode(bytes), 0x45) % 2 == 1
    ensures State(bytes) & 0x20 != 0 <==> PressCount(Decode(bytes), 0x46) % 2 == 1
    ensures State(bytes) & 0x40 != 0 <==> EndsInEscape(bytes)
  {
    var evs := Decode(bytes);
    StateIsHistory(bytes);
    HeldByKey(evs, SHIFT, {0x2A, 0x36});
    HeldByKey(evs, CTL, {0x1D, 0x9D});
    HeldByKey(evs, ALT, {0x38, 0xB8});
    PressesByKey(evs, CAPSLOCK, 0x3A);
    PressesByKey(evs, NUMLOCK, 0x45);
    PressesByKey(evs, SCROLLLOCK, 0x46);
  }

  // ----- What is typed -----

  /** The legend that shift and caps lock choose. */
  function Chosen(legend: Option<(char, char)>, shift: bool, caps: bool): uint8 {
    match legend
    case None => 0
    case Some((n, s)) =>
      var upper := if 'a' <= n <= 'z' then shift != caps else shift;
      (if upper then s as int else n as int) % 0x100
  }

  /** The character of a plain key under these modifiers. */
  function Typed(key: uint8, shift: bool, control: bool, caps: bool): uint8 {
    if control then ControlOf(key) else Chosen(Legend(key), shift, caps)
  }

  predicate IsModifier(key: uint8) {
    key in {0x1D, 0x2A, 0x36, 0x38, 0x3A, 0x45, 0x46}
  }

  predicate IsLetter(c: int) {
    97 <= c <= 122 || 65 <= c <= 90
  }

  /** A small letter has its capital beside it; other legends are no letters. */
  ghost predicate Cased(legend: Option<(char, char)>) {
    match legend
    case None => true
    case Some((n, s)) =>
      && (n as int) < 0x80 && (s as int) < 0x80
      && if 'a' <= n <= 'z' then (s as int) == (n as int) - 32 else !IsLetter(n as int) && !IsLetter(s as int)
  }

  lemma LegendFacts(key: uint8)
    ensures IsModifier(key) ==> Legend(key) == None
    ensures Cased(Legend(key))
  {
    if key < 0x20 {
      LowLegends(key);
    } else {
      HighLegends(key);
    }
  }

  lemma LowLegends(key: uint8)
    requires key < 0x20
    ensures Cased(Legend(key)) && (key == 0x1D ==> Legend(key) == None)
  {
  }

  lemma HighLegends(key: uint8)
    requires 0x20 <= key
    ensures Cased(Legend(key)) && (IsModifier(key) ==> Legend(key) == None)
  {
  }

  lemma PlainStep(s: bv8, data: uint8)
    requires data < 0x80 && s & 0x40 == 0 && !IsModifier(data)
    ensures KeyOf(false, data) == data && Step(s, data) == s
  {
    assert ShiftCode(data) == 0 && ToggleCode(data) == 0;
    NothingPressed(s);
  }

  lemma ModifierTypesNothing(s: bv8, data: uint8)
    requires data < 0x80 && s & 0x40 == 0 && IsModifier(data)
    ensures CharFor(s, data) == 0
  {
    AllKeys(data);
    LegendFacts(data);
    assert forall t: bv8 :: CharCode(t, data) == 0;
  }

  lemma PlainKeyTypes(s: bv8, data: uint8)
    requires data < 0x80 && s & 0x40 == 0
    ensures CharFor(s, data) == Typed(data, s & 0x01 != 0, s & 0x02 != 0, s & 0x08 != 0)
  {
    LegendFacts(data);
    if IsModifier(data) {
      ModifierTypesNothing(s, data);
    } else {
      PlainStep(s, data);
      AllKeys(data);
      MapTypes(s, data);
    }
  }

  lemma MapTypes(s: bv8, key: uint8)
    requires Entry(key)
    ensures Capitalised(s, CharCode(s, key)) == Typed(key, s & 0x01 != 0, s & 0x02 != 0, s & 0x08 != 0)
  {
    if s & 0x02 != 0 {
      ControlIsNoLetter(key);
    } else {
      LegendFacts(key);
      LegendTypes(s, Legend(key), CharCode(s, key));
    }
  }

  lemma LegendTypes(s: bv8, legend: Option<(char, char)>, c: uint8)
    requires Cased(legend)
    requires c == match legend
                  case None => 0
                  case Some((n, t)) => if s & 0x01 != 0 then t as int else n as int
    ensures Capitalised(s, c) == Chosen(legend, s & 0x01 != 0, s & 0x08 != 0)
  {
  }

  lemma ControlIsNoLetter(key: uint8)
    ensures !IsLetter(ControlOf(key))
  {
    LegendFacts(key);
  }

  lemma ExtendedKeyTypes(s: bv8, data: uint8)
    requires data < 0x80 && s & 0x40 != 0
    ensures CharFor(s, data) == Extended(data, s & 0x02 != 0)
  {
    ExtendedKeys(data);
  }

  /** The lower legend as a byte; 0 without one. */
  function Small(key: uint8): uint8 {
    Chosen(Legend(key), false, false)
  }

  /** From rest a key with a legend types the lower one, and the state stays at rest. */
  lemma FromRest(key: uint8)
    requires key < 0x80 && Small(key) != 0
    ensures Step(0, key) == 0 && CharFor(0, key) == Small(key)
  {
    LegendFacts(key);
    PlainStep(0, key);
    PlainKeyTypes(0, key);
  }

  /** After every stream of scan bytes, every key types its legend. */
  lemma EveryKey(bytes: seq<uint8>, data: uint8)
    requires data < 0x80
    ensures CharFor(State(bytes), data)
            == if EndsInEscape(bytes) then Extended(data, ControlHeld(bytes))
               else Typed(data, ShiftHeld(bytes), ControlHeld(bytes), CapsLocked(bytes))
  {
    StateByKey(bytes);
    if EndsInEscape(bytes) {
      ExtendedKeyTypes(State(bytes), data);
    } else {
      PlainKeyTypes(State(bytes), data);
    }
  }

  /** A prefix byte and a released key type nothing. */
  lemma NoCharacter(bytes: seq<uint8>, data: uint8)
    requires data >= 0x80
    ensures CharFor(State(bytes), data) == 0
  {
  }

  /** The restart is asked for exactly when Delete comes behind the prefix byte while control
      and alt are held. */
  lemma RestartKeys(bytes: seq<uint8>, port: uint8)
    ensures (port < 0x80 && State(bytes + [port]) & (CTL | ALT) == CTL | ALT && CharFor(State(bytes), port) == KEY_DEL)
            <==> EndsInEscape(bytes) && port == 0x53 && ControlHeld(bytes + [port]) && AltHeld(bytes + [port])
  {
    StateByKey(bytes + [port]);
    BothBits(State(bytes + [port]));
    if port < 0x80 {
      DeleteKey(bytes, port);
    }
  }

  lemma DeleteKey(bytes: seq<uint8>, data: uint8)
    requires data < 0x80
    ensures CharFor(State(bytes), data) == KEY_DEL <==> EndsInEscape(bytes) && data == 0x53
  {
    EveryKey(bytes, data);
    NoLegendIsDelete(data, ShiftHeld(bytes), ControlHeld(bytes), CapsLocked(bytes));
  }

  lemma BothBits(s: bv8)
    ensures s & (CTL | ALT) == CTL | ALT <==> s & 0x02 != 0 && s & 0x04 != 0
  {
  }

  lemma NoLegendIsDelete(key: uint8, shift: bool, control: bool, caps: bool)
    ensures Typed(key, shift, control, caps) != 0xE9
  {
    LegendFacts(key);
    ControlIsSmall(key);
    NotDelete(Legend(key), shift, caps);
  }

  lemma ControlIsSmall(key: uint8)
    ensures ControlOf(key) != 0xE9
  {
    LegendFacts(key);
  }

  lemma NotDelete(legend: Option<(char, char)>, shift: bool, caps: bool)
    requires Cased(legend)
    ensures Chosen(legend, shift, caps) < 0x80
  {
  }
}
