/** The text screen: 25 by 80 two-byte cells in video memory, and the cursor. */
module Screen {
  import opened Machine
  import opened Terminal
  import Memory

  const CRT_BYTES := 2 * CRT_SIZE

  /** Video memory read as little-endian 16-bit cells. */
  function Cells(m: seq<uint8>): (s: seq<uint16>) {
    seq(|m| / 2, i requires 0 <= i < |m| / 2 =>
      (m[2 * i] as int) + 0x100 * (m[2 * i + 1] as int))
  }

  lemma CellsMoved(m: seq<uint8>)
    requires |m| == CRT_BYTES
    ensures Cells(Memory.Moved(m, 0, 2 * CRT_COLS, CRT_BYTES - 2 * CRT_COLS))
            == Cells(m)[CRT_COLS..] + Cells(m)[CRT_SIZE - CRT_COLS..]
  {
  }

  /** What a device receives for one console character: a tab is followed by its five spaces. */
  function Sent(c: int): seq<int> {
    if Low(c) == 9 then [c, 32, 32, 32, 32, 32] else [c]
  }

  /** A tab is followed by five blanks on the way to both ports, any other character by nothing. */
  lemma SentMeans(c: int)
    ensures Sent(c) == if c % 0x100 == 9 then [c] + [32, 32, 32, 32, 32] else [c]
  {
  }

  /** The value the switch works on: an attribute is added when there is none. */
  function WithAttribute(c: int): uint32 {
    if c % WORD_SIZE < 0x100 then c % WORD_SIZE + 0x700 else c % WORD_SIZE
  }

  lemma LowByte(c: int, q: int, b: uint8)
    requires c == 0x100 * q + b
    ensures Low(c) == b
  {
  }

  /** A word from its upper half `h`, the attribute `a` and the character `b`. */
  lemma CellOf(u: nat, h: nat, a: uint8, b: uint8)
    requires u == 0x1_0000 * h + 0x100 * a + b
    ensures u % 0x100 == b && u % 0x1_0000 == 0x100 * a + b
  {
    assert u == 0x100 * (0x100 * h + a) + b;
  }

  lemma CellBits(u: uint32)
    ensures u % 0x1_0000 == (u - u % 0x100) % 0x1_0000 + u % 0x100
    ensures (u - u % 0x100 + 32) % 0x1_0000 == (u - u % 0x100) % 0x1_0000 + 32
  {
    var h, a, b := u / 0x1_0000, u % 0x1_0000 / 0x100, u % 0x1_0000 % 0x100;
    CellOf(u, h, a, b);
    CellOf(u - b, h, a, 0);
    CellOf(u - b + 32, h, a, 32);
  }

  lemma StoredGlyph(c: int)
    ensures var u := WithAttribute(c);
            && u % 0x100 == Low(c)
            && u % 0x1_0000 == Glyph(c, Low(c))
            && (u - u % 0x100 + 32) % 0x1_0000 == Glyph(c, 32)
  {
    LowOfWord(c);
    CellBits(WithAttribute(c));
  }

  lemma LowOfWord(c: int)
    ensures c % WORD_SIZE % 0x100 == Low(c)
  {
    var k, u := c / WORD_SIZE, c % WORD_SIZE;
    var q := u / 0x100;
    assert u == 0x100 * q + u % 0x100;
    LowByte(c, 0x100_0000 * k + q, u % 0x100);
  }

  lemma LineStartInWindow(top: nat, p: nat)
    ensures LineStart(CRT_COLS * top + p) == CRT_COLS * top + (p - p % CRT_COLS)
    ensures (p + CRT_COLS) % CRT_COLS == p % CRT_COLS
  {
  }

  lemma FiveSpaces(t: Term)
    requires t.Valid()
    ensures TypePlain(TypePlain(TypePlain(TypePlain(TypePlain(t, 32), 32), 32), 32), 32) == TypeSpaces(t, 5)
  {
    var u := TypePlain(t, 32);
    var v := TypePlain(u, 32);
    assert TypeSpaces(t, 5) == TypeSpaces(u, 4) == TypeSpaces(v, 3);
  }

  class Console {
    const crtBuf: array<uint8>
    var crtPos: uint16
    var serial: seq<int>
    var lpt: seq<int>
    ghost var term: Term

    ghost predicate Valid()
      reads this, crtBuf
    {
      && crtBuf.Length == CRT_BYTES
      && term.Valid()
      && Cells(crtBuf[..]) == term.Window()
      && crtPos == term.pos - CRT_COLS * term.top
    }

    /** Takes over the screen as it is, with the cursor where the hardware reports it. */
    constructor (buf: array<uint8>, pos: uint16)
      requires buf.Length == CRT_BYTES && pos < CRT_SIZE
      ensures Valid() && crtBuf == buf && crtPos == pos
      ensures term == Term(Cells(buf[..]), 0, pos)
      ensures serial == [] && lpt == []
    {
      crtBuf, crtPos := buf, pos;
      serial, lpt := [], [];
      term := Term(Cells(buf[..]), 0, pos);
    }

    /** Writes one cell, low byte first. */
    method StoreCell(p: nat, v: uint16)
      requires crtBuf.Length == CRT_BYTES && p < CRT_SIZE
      modifies crtBuf
      ensures Cells(crtBuf[..]) == Cells(old(crtBuf[..]))[p := v]
    {
      crtBuf[2 * p], crtBuf[2 * p + 1] := v % 0x100, v / 0x100;
    }

    /** Blanks one cell of the last line. */
    method BlankCell(i: nat, ghost was: seq<uint16>)
      requires crtBuf.Length == CRT_BYTES && CRT_SIZE - CRT_COLS <= i < CRT_SIZE == |was|
      requires Cells(crtBuf[..])[..i] == was[CRT_COLS..] + seq(i - (CRT_SIZE - CRT_COLS), _ => BLANK)
      modifies crtBuf
      ensures Cells(crtBuf[..])[..i + 1] == was[CRT_COLS..] + seq(i + 1 - (CRT_SIZE - CRT_COLS), _ => BLANK)
    {
      ghost var before := Cells(crtBuf[..]);
      StoreCell(i, 0x0720);
      assert Cells(crtBuf[..])[..i + 1] == before[..i] + [BLANK];
    }

    /** Moves every line up by one and blanks the last. */
    method ScrollUp()
      requires crtBuf.Length == CRT_BYTES
      modifies crtBuf
      ensures Cells(crtBuf[..]) == Cells(old(crtBuf[..]))[CRT_COLS..] + seq(CRT_COLS, _ => BLANK)
    {
      ghost var was := Cells(crtBuf[..]);
      CellsMoved(crtBuf[..]);
      var _ := Memory.Memmove(crtBuf, 0, 2 * CRT_COLS, CRT_BYTES - 2 * CRT_COLS);
      var i := CRT_SIZE - CRT_COLS;
      while i < CRT_SIZE
        invariant CRT_SIZE - CRT_COLS <= i <= CRT_SIZE
        invariant Cells(crtBuf[..])[..i] == was[CRT_COLS..] + seq(i - (CRT_SIZE - CRT_COLS), _ => BLANK)
      {
        BlankCell(i, was);
        i := i + 1;
      }
      assert Cells(crtBuf[..]) == Cells(crtBuf[..])[..CRT_SIZE];
    }

    /** The buffer shows the last lines of `t`, whose cursor may have run just past them. */
    ghost predicate Shows(t: Term)
      reads this, crtBuf
    {
      && crtBuf.Length == CRT_BYTES
      && |t.grid| == CRT_COLS * (t.top + CRT_ROWS)
      && CRT_COLS * t.top <= t.pos <= CRT_COLS * t.top + CRT_SIZE
      && Cells(crtBuf[..]) == t.grid[CRT_COLS * t.top..]
      && crtPos == t.pos - CRT_COLS * t.top
    }

    method Backspace(c: int)
      requires Valid() && Low(c) == 8
      modifies this`crtPos, crtBuf
      ensures Shows(Unscrolled(term, c))
    {
      StoredGlyph(c);
      if crtPos > 0 {
        crtPos := crtPos - 1;
        StoreCell(crtPos, (WithAttribute(c) - WithAttribute(c) % 0x100 + 32) % 0x1_0000);
      }
    }

    method CarriageReturn(ghost c: int)
      requires Valid() && Low(c) == 13
      modifies this`crtPos
      ensures Shows(Unscrolled(term, c))
    {
      LineStartInWindow(term.top, crtPos);
      crtPos := crtPos - crtPos % CRT_COLS;
    }

    method Newline(ghost c: int)
      requires Valid() && Low(c) == 10
      modifies this`crtPos
      ensures Shows(Unscrolled(term, c))
    {
      LineStartInWindow(term.top, crtPos);
      crtPos := crtPos + CRT_COLS;
      crtPos := crtPos - crtPos % CRT_COLS;
    }

    method PutGlyph(c: int)
      requires Valid() && Low(c) !in {8, 9, 10, 13}
      modifies this`crtPos, crtBuf
      ensures Shows(Unscrolled(term, c))
    {
      StoredGlyph(c);
      StoreCell(crtPos, WithAttribute(c) % 0x1_0000);
      crtPos := crtPos + 1;
    }

    /** The scroll at the end of every character. */
    method ScrollIfFull(ghost t: Term)
      requires Shows(t)
      modifies this`crtPos, this`term, crtBuf
      ensures Valid() && term == Scroll(t)
    {
      if crtPos >= CRT_SIZE {
        ScrollUp();
        crtPos := crtPos - CRT_COLS;
        ghost var u := Scroll(t);
        assert u.grid[CRT_COLS * u.top..] == t.grid[CRT_COLS * t.top..][CRT_COLS..] + seq(CRT_COLS, _ => BLANK);
      }
      term := Scroll(t);
    }

    /** The five calls that a tab makes. */
    method Tab()
      requires Valid()
      modifies this, crtBuf
      ensures Valid() && term == TypeSpaces(old(term), 5)
      ensures serial == old(serial) + [32, 32, 32, 32, 32] && lpt == old(lpt) + [32, 32, 32, 32, 32]
      decreases 0, 3
    {
      FiveSpaces(term);
      PutSpace();
      PutSpace();
      PutSpace();
      PutSpace();
      PutSpace();
    }

    /** One of the blanks that stand for a tab. */
    method PutSpace()
      requires Valid()
      modifies this, crtBuf
      ensures Valid() && term == TypePlain(old(term), 32)
      ensures serial == old(serial) + [32] && lpt == old(lpt) + [32]
      decreases 0, 2
    {
      ConsPutc(32);
    }

    /** Puts a character on the screen. */
    method CgaPutc(c: int)
      requires Valid()
      modifies this, crtBuf
      ensures Valid() && term == Type(old(term), c)
      ensures serial == old(serial) + Sent(c)[1..] && lpt == old(lpt) + Sent(c)[1..]
      decreases if Low(c) == 9 then 1 else 0, 0
    {
      ghost var t := if Low(c) == 9 then TypeSpaces(term, 5) else Unscrolled(term, c);
      StoredGlyph(c);
      match WithAttribute(c) % 0x100 {
        case 8 => Backspace(c);
        case 10 => Newline(c);
        case 13 => CarriageReturn(c);
        case 9 => Tab();
        case _ => PutGlyph(c);
      }
      ScrollIfFull(t);
    }

    /** Sends one character to both ports and puts it on the screen. */
    method ConsPutc(c: int)
      requires Valid()
      modifies this, crtBuf
      ensures Valid() && term == Type(old(term), c)
      ensures serial == old(serial) + Sent(c) && lpt == old(lpt) + Sent(c)
      decreases if Low(c) == 9 then 1 else 0, 1
    {
      serial := serial + [c];
      lpt := lpt + [c];
      CgaPutc(c);
    }
  }
}
