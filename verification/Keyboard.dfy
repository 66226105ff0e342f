/** From keyboard scan bytes to characters: modifier and lock state, escape prefix, key maps. */
module Keyboard {
  import opened Machine

  const SHIFT: bv8 := 0x01
  const CTL: bv8 := 0x02
  const ALT: bv8 := 0x04
  const CAPSLOCK: bv8 := 0x08
  const NUMLOCK: bv8 := 0x10
  const SCROLLLOCK: bv8 := 0x20
  const E0ESC: bv8 := 0x40

  const KBS_DIB: bv8 := 0x01
  const KBS_TERR: bv8 := 0x20

  const KEY_HOME := 0xE0
  const KEY_END := 0xE1
  const KEY_UP := 0xE2
  const KEY_DN := 0xE3
  const KEY_LF := 0xE4
  const KEY_RT := 0xE5
  const KEY_PGUP := 0xE6
  const KEY_PGDN := 0xE7
  const KEY_INS := 0xE8
  const KEY_DEL := 0xE9

  function ShiftCode(key: uint8): bv8 {
    match key
    case 0x1D => CTL
    case 0x2A => SHIFT
    case 0x36 => SHIFT
    case 0x38 => ALT
    case 0x9D => CTL
    case 0xB8 => ALT
    case _ => 0
  }

  function ToggleCode(key: uint8): bv8 {
    match key
    case 0x3A => CAPSLOCK
    case 0x45 => NUMLOCK
    case 0x46 => SCROLLLOCK
    case _ => 0
  }

  // The key maps, sixteen keys to a row; a NUL is a key without a character.
  const NORMAL: seq<string> := [
    "\0\U{1B}1234567890-=\U{08}\t",
    "qwertyuiop[]\n\0as",
    "dfghjkl;'`\0\\zxcv",
    "bnm,./\0*\0 \0\0\0\0\0\0",
    "\0\0\0\0\0\0\0789-456+1",
    "230.\0\0\0\0\0\0\0\0\0\0\0\0"]

  const SHIFTED: seq<string> := [
    "\0\U{1B}!@#$%^&*()_+\U{08}\t",
    "QWERTYUIOP{}\n\0AS",
    "DFGHJKL:\"~\0|ZXCV",
    "BNM<>?\0*\0 \0\0\0\0\0\0",
    "\0\0\0\0\0\0\0789-456+1",
    "230.\0\0\0\0\0\0\0\0\0\0\0\0"]

  /** Keys by the character whose control code they give. */
  const CONTROLLED: seq<string> := [
    "\0\0\0\0\0\0\0\0\0\0\0\0\0\0\0\0",
    "QWERTYUIOP\0\0\r\0AS",
    "DFGHJKL\0\0\0\0\\ZXCV",
    "BNM\0\0/\0\0\0\0\0\0\0\0\0\0"]

  function Keypad(key: uint8): uint8 {
    match key
    case 0xC8 => KEY_UP
    case 0xC9 => KEY_PGUP
    case 0xCB => KEY_LF
    case 0xCD => KEY_RT
    case 0xCF => KEY_END
    case 0xD0 => KEY_DN
    case 0xD1 => KEY_PGDN
    case 0xD2 => KEY_INS
    case 0xD3 => KEY_DEL
    case _ => 0
  }

  function TableChar(table: seq<string>, key: uint8): uint8 {
    if key / 16 < |table| && key % 16 < |table[key / 16]| then (table[key / 16][key % 16] as int) % 0x100 else 0
  }

  function PlainMap(table: seq<string>, key: uint8): uint8 {
    if key == 0xC7 then KEY_HOME
    else if key == 0x9C then 10
    else if key == 0xB5 then 47
    else if key < 0x60 then TableChar(table, key)
    else Keypad(key)
  }

  function CtlMap(key: uint8): uint8 {
    if key == 0x97 then KEY_HOME
    else if key == 0xB5 then (47 - 64) % 0x100
    else if key < 0x60 then
      var c := TableChar(CONTROLLED, key);
      if c == 0 || c == 13 then c else (c - 64) % 0x100
    else Keypad(key)
  }

  function CharCode(shift: bv8, key: uint8): uint8 {
    if shift & CTL != 0 then CtlMap(key)
    else if shift & SHIFT != 0 then PlainMap(SHIFTED, key)
    else PlainMap(NORMAL, key)
  }

  /** The keys q to p, a to l and z to m. */
  predicate IsLetterKey(key: uint8) {
    0x10 <= key <= 0x19 || 0x1E <= key <= 0x26 || 0x2C <= key <= 0x32
  }

  predicate LetterEntry(key: uint8) {
    && 97 <= PlainMap(NORMAL, key) <= 122
    && PlainMap(SHIFTED, key) == PlainMap(NORMAL, key) - 32
    && CtlMap(key) == PlainMap(NORMAL, key) - 96
  }

  lemma LettersQtoE(key: uint8)
    requires 0x10 <= key <= 0x12
    ensures LetterEntry(key)
  {
  }

  lemma LettersRtoY(key: uint8)
    requires 0x13 <= key <= 0x15
    ensures LetterEntry(key)
  {
  }

  lemma LettersUtoP(key: uint8)
    requires 0x16 <= key <= 0x19
    ensures LetterEntry(key)
  {
  }

  lemma LettersAtoS(key: uint8)
    requires 0x1E <= key <= 0x1F
    ensures LetterEntry(key)
  {
  }

  lemma LettersDtoG(key: uint8)
    requires 0x20 <= key <= 0x22
    ensures LetterEntry(key)
  {
  }

  lemma LettersHtoL(key: uint8)
    requires 0x23 <= key <= 0x26
    ensures LetterEntry(key)
  {
  }

  lemma LettersZtoV(key: uint8)
    requires 0x2C <= key <= 0x2F
    ensures LetterEntry(key)
  {
  }

  lemma LettersBtoM(key: uint8)
    requires 0x30 <= key <= 0x32
    ensures LetterEntry(key)
  {
  }

  /** The three maps agree on the letters. */
  lemma LetterKeys(key: uint8)
    requires IsLetterKey(key)
    ensures LetterEntry(key)
  {
    if key <= 0x12 {
      LettersQtoE(key);
    } else if key <= 0x15 {
      LettersRtoY(key);
    } else if key <= 0x19 {
      LettersUtoP(key);
    } else if key <= 0x1F {
      LettersAtoS(key);
    } else if key <= 0x22 {
      LettersDtoG(key);
    } else if key <= 0x26 {
      LettersHtoL(key);
    } else if key <= 0x2F {
      LettersZtoV(key);
    } else {
      LettersBtoM(key);
    }
  }

  // ----- One scan byte -----

  function KeyOf(prefixed: bool, data: uint8): uint8 {
    if data >= 0x80 then (if prefixed then data else data - 0x80)
    else (if prefixed then data + 0x80 else data)
  }

  function Step(shift: bv8, data: uint8): bv8 {
    var key := KeyOf(shift & E0ESC != 0, data);
    if data == 0xE0 then shift | E0ESC
    else if data >= 0x80 then shift & !(ShiftCode(key) | E0ESC)
    else ((shift & !E0ESC) | ShiftCode(key)) ^ ToggleCode(key)
  }

  function Capitalised(shift: bv8, c: uint8): uint8 {
    if shift & CAPSLOCK == 0 then c
    else if 97 <= c <= 122 then c - 32
    else if 65 <= c <= 90 then c + 32
    else c
  }

  /** The character that scan byte `data` completes, or 0. */
  function CharFor(shift: bv8, data: uint8): uint8 {
    if data == 0xE0 || data >= 0x80 then 0
    else
      var after := Step(shift, data);
      Capitalised(after, CharCode(after, KeyOf(shift & E0ESC != 0, data)))
  }

  class Controller {
    var shift: bv8
    var reboots: nat
    ghost var bytes: seq<uint8>

    ghost predicate Valid()
      reads this
    {
      shift == State(bytes)
    }

    constructor ()
      ensures Valid() && bytes == [] && reboots == 0
    {
      shift, reboots, bytes := 0, 0, [];
    }

    /** Reads the keyboard controller once: a character, 0 for none yet, -1 for no data. */
    method KbdProcData(stat: bv8, port: uint8) returns (c: int)
      requires Valid()
      modifies this
      ensures Valid() && -1 <= c <= 0xFF && (c == -1 <==> stat & 0x01 == 0 || stat & 0x20 != 0)
      ensures c == -1 ==> bytes == old(bytes) && reboots == old(reboots)
      ensures c != -1 ==>
                && bytes == old(bytes) + [port]
                && c == CharFor(State(old(bytes)), port)
                && reboots == old(reboots) +
                              if port < 0x80 && shift & (CTL | ALT) == CTL | ALT && c == KEY_DEL then 1 else 0
    {
      if stat & KBS_DIB == 0 {
        return -1;
      }
      if stat & KBS_TERR != 0 {
        return -1;
      }
      StateAppend(bytes, port);
      bytes := bytes + [port];
      c := Scan(port);
    }

    /** Takes one byte from the controller. */
    method Scan(port: uint8) returns (c: uint8)
      modifies this`shift, this`reboots
      ensures shift == Step(old(shift), port) && c == CharFor(old(shift), port)
      ensures reboots == old(reboots) +
                            if port < 0x80 && shift & (CTL | ALT) == CTL | ALT && c == KEY_DEL then 1 else 0
    {
      if port == 0xE0 {
        shift := shift | E0ESC;
        c := 0;
      } else if port >= 0x80 {
        KeyUp(port);
        c := 0;
      } else {
        c := KeyDown(port);
      }
    }

    method KeyUp(port: uint8)
      requires port >= 0x80 && port != 0xE0
      modifies this`shift
      ensures shift == Step(old(shift), port)
    {
      var data := if shift & E0ESC != 0 then port else port % 0x80;
      shift := shift & !(ShiftCode(data) | E0ESC);
    }

    method KeyDown(port: uint8) returns (c: uint8)
      requires port < 0x80
      modifies this`shift, this`reboots
      ensures shift == Step(old(shift), port) && c == CharFor(old(shift), port)
      ensures reboots == old(reboots) + if shift & (CTL | ALT) == CTL | ALT && c == KEY_DEL then 1 else 0
    {
      var data := port;
      NothingPressed(shift);
      if shift & E0ESC != 0 {
        data := data + 0x80;
        shift := shift & !E0ESC;
      }
      c := Pressed(data);
    }

    /** The part for a pressed key, once the escape prefix is dealt with. */
    method Pressed(key: uint8) returns (c: uint8)
      modifies this`shift, this`reboots
      ensures shift == (old(shift) | ShiftCode(key)) ^ ToggleCode(key)
      ensures c == Capitalised(shift, CharCode(shift, key))
      ensures reboots == old(reboots) + if shift & (CTL | ALT) == CTL | ALT && c == KEY_DEL then 1 else 0
    {
      shift := shift | ShiftCode(key);
      shift := shift ^ ToggleCode(key);
      c := CharCode(shift, key);
      if shift & CAPSLOCK != 0 {
        if 97 <= c <= 122 {
          c := c - 32;
        } else if 65 <= c <= 90 {
          c := c + 32;
        }
      }
      if !shift & (CTL | ALT) == 0 && c == KEY_DEL {
        reboots := reboots + 1;
      }
    }
  }

  // ----- Whole histories -----

  datatype KeyEvent = Press(key: uint8) | Release(key: uint8)

  function State(bytes: seq<uint8>): bv8 {
    if bytes == [] then 0 else Step(State(bytes[..|bytes| - 1]), bytes[|bytes| - 1])
  }

  /** The key events that a stream of scan bytes spells out. */
  function Decode(bytes: seq<uint8>): seq<KeyEvent> {
    if bytes == [] then []
    else
      var before, data := bytes[..|bytes| - 1], bytes[|bytes| - 1];
      if data == 0xE0 then Decode(before)
      else
        var key := KeyOf(EndsInEscape(before), data);
        Decode(before) + [if data >= 0x80 then Release(key) else Press(key)]
  }

  predicate EndsInEscape(bytes: seq<uint8>) {
    |bytes| > 0 && bytes[|bytes| - 1] == 0xE0
  }

  /** Event `i` presses a key of modifier `bit`, and no later event is on such a key. */
  ghost predicate LastPress(evs: seq<KeyEvent>, i: int, bit: bv8) {
    0 <= i < |evs| && evs[i].Press? && ShiftCode(evs[i].key) == bit
    && forall j :: i < j < |evs| ==> ShiftCode(evs[j].key) != bit
  }

  /** The last event on a key of modifier `bit` was a press. */
  ghost predicate Held(evs: seq<KeyEvent>, bit: bv8) {
    exists i :: LastPress(evs, i, bit)
  }

  /** How often a key of lock `bit` was pressed. */
  function Presses(evs: seq<KeyEvent>, bit: bv8): nat {
    if evs == [] then 0
    else
      var e := evs[|evs| - 1];
      Presses(evs[..|evs| - 1], bit) + if e.Press? && ToggleCode(e.key) == bit then 1 else 0
  }

  lemma HeldAppend(evs: seq<KeyEvent>, e: KeyEvent, bit: bv8)
    ensures Held(evs + [e], bit) <==> if ShiftCode(e.key) == bit then e.Press? else Held(evs, bit)
  {
    var all := evs + [e];
    assert forall j :: 0 <= j < |evs| ==> all[j] == evs[j];
    if ShiftCode(e.key) == bit {
      if e.Press? {
        assert LastPress(all, |evs|, bit);
      } else {
        assert forall i :: 0 <= i < |evs| ==> !LastPress(all, i, bit) by {
          assert all[|evs|] == e;
        }
      }
    } else {
      assert forall i :: LastPress(evs, i, bit) <==> LastPress(all, i, bit);
    }
  }

  lemma StepModifier(shift: bv8, data: uint8, bit: bv8)
    requires bit == SHIFT || bit == CTL || bit == ALT
    ensures var key := KeyOf(shift & E0ESC != 0, data);
            Step(shift, data) & bit != 0 <==>
            if data != 0xE0 && ShiftCode(key) == bit then data < 0x80 else shift & bit != 0
  {
  }

  /** The byte is a press of the lock key that owns `bit`. */
  ghost predicate Toggles(escaped: bool, data: uint8, bit: bv8) {
    data < 0x80 && ToggleCode(KeyOf(escaped, data)) == bit
  }

  lemma StepLock(shift: bv8, data: uint8, bit: bv8)
    requires bit == CAPSLOCK || bit == NUMLOCK || bit == SCROLLLOCK
    ensures Step(shift, data) & bit != 0
            <==> if Toggles(shift & E0ESC != 0, data, bit) then shift & bit == 0 else shift & bit != 0
  {
  }

  lemma StateAppend(bytes: seq<uint8>, data: uint8)
    ensures State(bytes + [data]) == Step(State(bytes), data)
  {
  }

  lemma DecodeAppend(bytes: seq<uint8>, data: uint8)
    ensures var key := KeyOf(EndsInEscape(bytes), data);
            Decode(bytes + [data]) ==
            if data == 0xE0 then Decode(bytes)
            else Decode(bytes) + [if data >= 0x80 then Release(key) else Press(key)]
  {
  }

  lemma EscapeHistory(bytes: seq<uint8>)
    ensures State(bytes) & E0ESC != 0 <==> EndsInEscape(bytes)
  {
  }

  lemma {:induction false} ModifierHistory(bytes: seq<uint8>, bit: bv8)
    requires bit == SHIFT || bit == CTL || bit == ALT
    ensures State(bytes) & bit != 0 <==> Held(Decode(bytes), bit)
  {
    if bytes != [] {
      var before, data := bytes[..|bytes| - 1], bytes[|bytes| - 1];
      assert bytes == before + [data];
      ModifierHistory(before, bit);
      EscapeHistory(before);
      StepModifier(State(before), data, bit);
      DecodeAppend(before, data);
      var key := KeyOf(EndsInEscape(before), data);
      HeldAppend(Decode(before), if data >= 0x80 then Release(key) else Press(key), bit);
    }
  }

  lemma PressesDecoded(bytes: seq<uint8>, data: uint8, bit: bv8)
    ensures Presses(Decode(bytes + [data]), bit)
            == Presses(Decode(bytes), bit) + if Toggles(EndsInEscape(bytes), data, bit) then 1 else 0
  {
    DecodeAppend(bytes, data);
    if data != 0xE0 {
      var key := KeyOf(EndsInEscape(bytes), data);
      PressesAppend(Decode(bytes), if data >= 0x80 then Release(key) else Press(key), bit);
    }
  }

  lemma PressesAppend(evs: seq<KeyEvent>, e: KeyEvent, bit: bv8)
    ensures Presses(evs + [e], bit) == Presses(evs, bit) + if e.Press? && ToggleCode(e.key) == bit then 1 else 0
  {
  }

  lemma {:induction false} LockHistory(bytes: seq<uint8>, bit: bv8)
    requires bit == CAPSLOCK || bit == NUMLOCK || bit == SCROLLLOCK
    ensures State(bytes) & bit != 0 <==> Presses(Decode(bytes), bit) % 2 == 1
  {
    if bytes != [] {
      var before, data := bytes[..|bytes| - 1], bytes[|bytes| - 1];
      assert bytes == before + [data];
      LockHistory(before, bit);
      LockMore(before, data, bit);
    }
  }

  lemma LockMore(bytes: seq<uint8>, data: uint8, bit: bv8)
    requires bit == CAPSLOCK || bit == NUMLOCK || bit == SCROLLLOCK
    requires State(bytes) & bit != 0 <==> Presses(Decode(bytes), bit) % 2 == 1
    ensures State(bytes + [data]) & bit != 0 <==> Presses(Decode(bytes + [data]), bit) % 2 == 1
  {
    LockFlips(bytes, data, bit);
    PressesDecoded(bytes, data, bit);
    ParityFlips(State(bytes) & bit != 0, State(bytes + [data]) & bit != 0, Toggles(EndsInEscape(bytes), data, bit),
                Presses(Decode(bytes), bit), Presses(Decode(bytes + [data]), bit));
  }

  lemma LockFlips(bytes: seq<uint8>, data: uint8, bit: bv8)
    requires bit == CAPSLOCK || bit == NUMLOCK || bit == SCROLLLOCK
    ensures (State(bytes + [data]) & bit != 0) == ((State(bytes) & bit != 0) != Toggles(EndsInEscape(bytes), data, bit))
  {
    EscapeHistory(bytes);
    StateAppend(bytes, data);
    StepLock(State(bytes), data, bit);
  }

  lemma ParityFlips(was: bool, now: bool, toggled: bool, n: nat, m: nat)
    requires now == (was != toggled) && m == n + (if toggled then 1 else 0) && (was <==> n % 2 == 1)
    ensures now <==> m % 2 == 1
  {
  }

  /** Every bit of the keyboard state says what the stream so far says. */
  ghost predicate Faithful(shift: bv8, bytes: seq<uint8>) {
    && (shift & E0ESC != 0 <==> EndsInEscape(bytes))
    && (shift & SHIFT != 0 <==> Held(Decode(bytes), SHIFT))
    && (shift & CTL != 0 <==> Held(Decode(bytes), CTL))
    && (shift & ALT != 0 <==> Held(Decode(bytes), ALT))
    && (shift & CAPSLOCK != 0 <==> Presses(Decode(bytes), CAPSLOCK) % 2 == 1)
    && (shift & NUMLOCK != 0 <==> Presses(Decode(bytes), NUMLOCK) % 2 == 1)
    && (shift & SCROLLLOCK != 0 <==> Presses(Decode(bytes), SCROLLLOCK) % 2 == 1)
  }

  /** The keyboard state equals its history. */
  lemma StateIsHistory(bytes: seq<uint8>)
    ensures Faithful(State(bytes), bytes)
  {
    EscapeHistory(bytes);
    ModifierHistory(bytes, SHIFT);
    ModifierHistory(bytes, CTL);
    ModifierHistory(bytes, ALT);
    LockHistory(bytes, CAPSLOCK);
    LockHistory(bytes, NUMLOCK);
    LockHistory(bytes, SCROLLLOCK);
  }

  lemma NothingPressed(s: bv8)
    ensures s & E0ESC == 0 ==> s & !E0ESC == s && ((s & !E0ESC) | 0) ^ 0 == s
  {
  }

  lemma LetterChar(s: bv8, data: uint8)
    requires IsLetterKey(data) && s & E0ESC == 0 && s & CTL == 0
    ensures var lower := PlainMap(NORMAL, data);
            CharFor(s, data) == if s & SHIFT != 0 <==> s & CAPSLOCK == 0 then lower - 32 else lower
  {
    LetterKeys(data);
    LetterChangesNothing(s, data);
    LetterCode(s, data);
  }

  lemma LetterChangesNothing(s: bv8, data: uint8)
    requires IsLetterKey(data) && s & E0ESC == 0
    ensures KeyOf(false, data) == data && Step(s, data) == s
  {
  }

  lemma LetterCode(s: bv8, data: uint8)
    requires LetterEntry(data) && s & CTL == 0
    ensures CharCode(s, data) == if s & SHIFT != 0 then PlainMap(NORMAL, data) - 32 else PlainMap(NORMAL, data)
  {
  }

  /** Without control, a letter key gives its capital exactly when one of shift and caps lock is on. */
  lemma LetterCase(bytes: seq<uint8>, data: uint8)
    requires IsLetterKey(data) && !EndsInEscape(bytes)
    requires !Held(Decode(bytes), CTL)
    ensures var lower := PlainMap(NORMAL, data);
            var capital := Held(Decode(bytes), SHIFT) <==> Presses(Decode(bytes), CAPSLOCK) % 2 == 0;
            97 <= lower <= 122 && CharFor(State(bytes), data) == if capital then lower - 32 else lower
  {
    StateIsHistory(bytes);
    LetterKeys(data);
    LetterChar(State(bytes), data);
  }

  lemma ControlChar(s: bv8, data: uint8)
    requires IsLetterKey(data) && s & E0ESC == 0 && s & CTL != 0
    ensures CharFor(s, data) == PlainMap(NORMAL, data) - 96
  {
    LetterKeys(data);
    LetterChangesNothing(s, data);
  }

  /** With control held, a letter key gives its control code, whatever shift and the locks say. */
  lemma LetterControl(bytes: seq<uint8>, data: uint8)
    requires IsLetterKey(data) && !EndsInEscape(bytes) && Held(Decode(bytes), CTL)
    ensures 97 <= PlainMap(NORMAL, data) <= 122
    ensures CharFor(State(bytes), data) == PlainMap(NORMAL, data) - 96
  {
    StateIsHistory(bytes);
    LetterKeys(data);
    ControlChar(State(bytes), data);
  }
}
