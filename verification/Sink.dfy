/** Where formatted characters go: the two putch routines of the kernel and what they update. */
module Sink {
  import opened Machine
  import opened Terminal
  import Screen

  const E_INVAL := 3

  datatype Target = Buffer | Display

  function Byte(ch: int): uint8 {
    ch % 0x100
  }

  /** What both devices behind the screen receive for a run of characters. */
  function SentAll(cs: seq<int>): seq<int> {
    if cs == [] then [] else SentAll(cs[..|cs| - 1]) + Screen.Sent(cs[|cs| - 1])
  }

  lemma SentAllAppend(cs: seq<int>, c: int)
    ensures SentAll(cs + [c]) == SentAll(cs) + Screen.Sent(c)
  {
  }

  lemma SentMore(before: seq<int>, cs: seq<int>, c: int)
    ensures before + SentAll(cs) + Screen.Sent(c) == before + SentAll(cs + [c])
  {
    SentAllAppend(cs, c);
  }

  lemma TypeAllOne(t: Term, cs: seq<int>, c: int)
    requires t.Valid()
    ensures TypeAll(t, cs + [c]) == Type(TypeAll(t, cs), c)
  {
    TypeAllAppend(t, cs, [c]);
    assert [c][1..] == [];
  }

  /** A putch routine with its putdat. `log` is every character it was given. */
  class PutDat {
    const target: Target
    const mem: array?<uint8>
    const start: nat
    const ebuf: nat
    var buf: nat
    const console: Screen.Console?
    var cnt: int
    ghost var log: seq<int>
    ghost const mem0: seq<uint8>
    ghost const term0: Term
    ghost const serial0: seq<int>
    ghost const lpt0: seq<int>

    ghost function Frame(): set<object> {
      {this} + (if mem != null then {mem} else {})
      + if console != null then {console, console.crtBuf} else {}
    }

    /** How many characters are in the buffer so far. */
    ghost function Room(): nat
      requires start <= ebuf
      reads this`log
    {
      if |log| < ebuf - start then |log| else ebuf - start
    }

    /** The buffer holds the log cut to its room, and nothing else changed. */
    ghost predicate Buffered()
      reads this, mem
    {
      && mem != null && console == null
      && start <= ebuf < mem.Length == |mem0|
      && buf == start + Room()
      && (forall k :: 0 <= k < Room() ==> mem[start + k] == Byte(log[k]))
      && (forall k :: 0 <= k < mem.Length && !(start <= k < start + Room()) ==> mem[k] == mem0[k])
    }

    /** The screen and the devices have taken the whole log. */
    ghost predicate Displayed()
      reads this, console, if console != null then {console.crtBuf} else {}
    {
      && mem == null && console != null && console.Valid() && term0.Valid()
      && console.term == TypeAll(term0, log)
      && console.serial == serial0 + SentAll(log) && console.lpt == lpt0 + SentAll(log)
    }

    ghost predicate Valid()
      reads Frame()
    {
      cnt == |log| && if target.Buffer? then Buffered() else Displayed()
    }

    constructor ToBuffer(m: array<uint8>, from: nat, end: nat)
      requires from <= end < m.Length
      ensures Valid() && log == [] && target == Buffer && Frame() == {this, m}
      ensures mem == m && start == from && ebuf == end && mem0 == m[..]
    {
      target, mem, start, ebuf, buf, console := Buffer, m, from, end, from, null;
      cnt, log, mem0, term0, serial0, lpt0 := 0, [], m[..], Term([], 0, 0), [], [];
    }

    constructor ToDisplay(c: Screen.Console)
      requires c.Valid()
      ensures Valid() && log == [] && target == Display && Frame() == {this, c, c.crtBuf}
      ensures console == c && term0 == c.term && serial0 == c.serial && lpt0 == c.lpt
    {
      target, mem, start, ebuf, buf, console := Display, null, 0, 0, 0, c;
      cnt, log, mem0, term0, serial0, lpt0 := 0, [], [], c.term, c.serial, c.lpt;
    }

    /** sprintputch: counts every character, stores it while there is room. */
    method SprintPutch(ch: int)
      requires Valid() && target == Buffer
      modifies Frame()
      ensures Valid() && log == old(log) + [ch]
    {
      cnt := cnt + 1;
      log := log + [ch];
      if buf < ebuf {
        mem[buf] := Byte(ch);
        buf := buf + 1;
      }
    }

    /** The console's putch: displays every character and counts it. */
    method ConsolePutch(ch: int)
      requires Valid() && target == Display
      modifies Frame()
      ensures Valid() && log == old(log) + [ch]
    {
      TypeAllOne(term0, log, ch);
      SentMore(serial0, log, ch);
      SentMore(lpt0, log, ch);
      console.ConsPutc(ch);
      cnt := cnt + 1;
      log := log + [ch];
    }

    method Putch(ch: int)
      requires Valid()
      modifies Frame()
      ensures Valid() && log == old(log) + [ch]
    {
      if target == Buffer {
        SprintPutch(ch);
      } else {
        ConsolePutch(ch);
      }
    }
  }
}
