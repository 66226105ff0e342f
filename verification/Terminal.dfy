/** What the text screen shows: a 25-line window on a page that grows without bound. */
module Terminal {
  import opened Machine

  const CRT_COLS := 80
  const CRT_ROWS := 25
  const CRT_SIZE := CRT_ROWS * CRT_COLS
  const BLANK: uint16 := 0x0720

  // ----- One console character -----

  /** The low byte of an int, which selects what a character does. */
  function Low(c: int): uint8 {
    c % 256
  }

  /** The attribute bits that reach a 16-bit cell: black on white when none are given. */
  function Attr(c: int): uint16 {
    var u := c % WORD_SIZE;
    if u < 256 then 0x0700 else (u - u % 256) % 0x1_0000
  }

  function Glyph(c: int, b: uint8): uint16 {
    Attr(c) + b
  }

  // ----- The unbounded page -----

  /** Cells beyond those written are blank; `pos` counts cells from the top left corner. */
  datatype Page = Page(cells: seq<uint16>, pos: nat)

  function CellAt(cells: seq<uint16>, i: nat): uint16 {
    if i < |cells| then cells[i] else BLANK
  }

  function Write(cells: seq<uint16>, i: nat, v: uint16): (r: seq<uint16>)
    ensures forall k: nat :: CellAt(r, k) == if k == i then v else CellAt(cells, k)
  {
    var wide := if i < |cells| then cells else cells + seq(i + 1 - |cells|, _ => BLANK);
    wide[i := v]
  }

  function LineStart(pos: nat): nat {
    pos - pos % CRT_COLS
  }

  function InkPlain(p: Page, c: int): Page {
    match Low(c)
    case 8 => if p.pos > 0 then Page(Write(p.cells, p.pos - 1, Glyph(c, 32)), p.pos - 1) else p
    case 10 => p.(pos := LineStart(p.pos) + CRT_COLS)
    case 13 => p.(pos := LineStart(p.pos))
    case _ => Page(Write(p.cells, p.pos, Glyph(c, Low(c))), p.pos + 1)
  }

  function InkSpaces(p: Page, n: nat): Page
    decreases n
  {
    if n == 0 then p else InkSpaces(InkPlain(p, 32), n - 1)
  }

  function Ink(p: Page, c: int): Page {
    if Low(c) == 9 then InkSpaces(p, 5) else InkPlain(p, c)
  }

  function InkAll(p: Page, cs: seq<int>): Page
    decreases |cs|
  {
    if cs == [] then p else InkAll(Ink(p, cs[0]), cs[1..])
  }

  // ----- The window -----

  /** All lines ever shown, `top` of them scrolled off; `pos` counts from the very first. */
  datatype Term = Term(grid: seq<uint16>, top: nat, pos: nat) {
    ghost predicate Valid() {
      |grid| == CRT_COLS * (top + CRT_ROWS) && CRT_COLS * top <= pos < CRT_COLS * top + CRT_SIZE
    }

    function Window(): seq<uint16>
      requires Valid()
    {
      grid[CRT_COLS * top..]
    }
  }

  function Scroll(t: Term): Term {
    if t.pos >= CRT_COLS * t.top + CRT_SIZE
    then Term(t.grid + seq(CRT_COLS, _ => BLANK), t.top + 1, t.pos)
    else t
  }

  /** Before the scroll: the cursor may have run just past the window. */
  function Unscrolled(t: Term, c: int): Term
    requires t.Valid()
  {
    match Low(c)
    case 8 =>
      if t.pos > CRT_COLS * t.top
      then t.(grid := t.grid[t.pos - 1 := Glyph(c, 32)], pos := t.pos - 1)
      else t
    case 10 => t.(pos := LineStart(t.pos) + CRT_COLS)
    case 13 => t.(pos := LineStart(t.pos))
    case _ => t.(grid := t.grid[t.pos := Glyph(c, Low(c))], pos := t.pos + 1)
  }

  function TypePlain(t: Term, c: int): (r: Term)
    requires t.Valid()
    ensures r.Valid()
  {
    Scroll(Unscrolled(t, c))
  }

  function TypeSpaces(t: Term, n: nat): (r: Term)
    requires t.Valid()
    ensures r.Valid()
    decreases n
  {
    if n == 0 then t else TypeSpaces(TypePlain(t, 32), n - 1)
  }

  function Type(t: Term, c: int): (r: Term)
    requires t.Valid()
    ensures r.Valid()
  {
    if Low(c) == 9 then TypeSpaces(t, 5) else TypePlain(t, c)
  }

  function TypeAll(t: Term, cs: seq<int>): (r: Term)
    requires t.Valid()
    ensures r.Valid()
    decreases |cs|
  {
    if cs == [] then t else TypeAll(Type(t, cs[0]), cs[1..])
  }

  lemma {:induction false} TypeAllAppend(t: Term, cs: seq<int>, ds: seq<int>)
    requires t.Valid()
    ensures TypeAll(t, cs + ds) == TypeAll(TypeAll(t, cs), ds)
    decreases |cs|
  {
    if cs == [] {
      assert cs + ds == ds;
    } else {
      assert (cs + ds)[1..] == cs[1..] + ds;
      TypeAllAppend(Type(t, cs[0]), cs[1..], ds);
    }
  }

  // ----- What the characters do -----

  /** A character that is no control character. */
  predicate IsPrintable(c: int) {
    32 <= c <= 0xFF
  }

  /** After `u` scrolled as far as its cursor asks, it keeps what `t` showed on 25 lines of 80. */
  ghost predicate Keeps(t: Term, u: Term) {
    && t.Valid() && u.Valid()
    && u.top == (if u.pos >= 80 * (t.top + 25) then t.top + 1 else t.top)
    && |u.grid| == |t.grid| + 80 * (u.top - t.top)
    && forall k :: |t.grid| <= k < |u.grid| ==> u.grid[k] == 0x0720
  }

  /** A newline goes to the start of the next line, and writes nothing. */
  lemma NewlineMeans(t: Term)
    requires t.Valid()
    ensures var u := Type(t, 10);
            u.pos % 80 == 0 && t.pos < u.pos <= t.pos + 80 && Keeps(t, u) && t.grid <= u.grid
  {
    var moved := NewlineMoves(t);
    ScrollKeeps(t, moved);
  }

  lemma NewlineMoves(t: Term) returns (moved: Term)
    requires t.Valid()
    ensures Type(t, 10) == Scroll(moved) && moved.grid == t.grid && moved.top == t.top
    ensures moved.pos % 80 == 0 && t.pos < moved.pos <= t.pos + 80
  {
    moved := Unscrolled(t, 10);
    NewlineUnscrolled(t);
    NextLineStart(t.pos);
  }

  lemma NewlineUnscrolled(t: Term)
    requires t.Valid()
    ensures Unscrolled(t, 10) == t.(pos := LineStart(t.pos) + CRT_COLS)
  {
  }

  lemma NextLineStart(pos: nat)
    ensures (LineStart(pos) + CRT_COLS) % 80 == 0 && pos < LineStart(pos) + CRT_COLS <= pos + 80
  {
  }

  lemma ScrollKeeps(t: Term, moved: Term)
    requires t.Valid() && |moved.grid| == |t.grid| && moved.top == t.top
    requires 80 * t.top <= moved.pos <= 80 * (t.top + 25) + 79
    ensures Keeps(t, Scroll(moved)) && moved.grid <= Scroll(moved).grid && Scroll(moved).pos == moved.pos
  {
  }

  /** A carriage return goes back to the start of the line, and writes nothing. */
  lemma ReturnMeans(t: Term)
    requires t.Valid()
    ensures var u := Type(t, 13);
            u.pos % 80 == 0 && u.pos <= t.pos < u.pos + 80 && u.grid == t.grid && u.top == t.top
  {
  }

  /** A backspace blanks the cell before the cursor and goes there, unless it is in the
      window's top left corner. */
  lemma BackspaceMeans(t: Term)
    requires t.Valid()
    ensures var u := Type(t, 8);
            if t.pos == 80 * t.top then u == t
            else u.pos == t.pos - 1 && u.grid == t.grid[u.pos := 0x0720] && u.top == t.top
  {
  }

  /** A printable character is written black on white, and the cursor goes on. */
  lemma PrintableMeans(t: Term, c: int)
    requires t.Valid() && IsPrintable(c)
    ensures var u := Type(t, c);
            u.pos == t.pos + 1 && Keeps(t, u) && t.grid[t.pos := 0x0700 + c] <= u.grid
  {
    PlainGlyph(c);
    ScrollKeeps(t, t.(grid := t.grid[t.pos := 0x0700 + c], pos := t.pos + 1));
  }

  lemma PlainGlyph(c: int)
    requires 0 <= c <= 0xFF
    ensures Low(c) == c && Glyph(c, Low(c)) == 0x0700 + c
  {
  }

  /** With an attribute the cell holds the character with it, and an erased cell a blank with it. */
  lemma AttributeMeans(t: Term, c: int)
    requires t.Valid() && 0x100 <= c <= 0xFFFF
    ensures var u := Type(t, c);
            && (Low(c) >= 32 ==> u.pos == t.pos + 1 && t.grid[t.pos := c] <= u.grid)
            && (Low(c) == 8 && t.pos > 80 * t.top ==> u == t.(grid := t.grid[t.pos - 1 := c + 24], pos := t.pos - 1))
  {
    GlyphWithAttribute(c);
  }

  lemma GlyphWithAttribute(c: int)
    requires 0x100 <= c <= 0xFFFF
    ensures Glyph(c, Low(c)) == c && (Low(c) == 8 ==> Glyph(c, 32) == c + 24)
  {
    assert c % WORD_SIZE == c;
  }

  /** A tab writes five blanks, wherever the cursor is. */
  lemma TabMeans(t: Term, blanks: seq<int>)
    requires t.Valid() && |blanks| == 5 && forall i :: 0 <= i < 5 ==> blanks[i] == 32
    ensures Type(t, 9) == TypeAll(t, blanks) && Type(t, 9).pos == t.pos + 5
  {
    TabIsSpaces(t, 5);
    SpacesAreBlanks(t, blanks);
  }

  lemma TabIsSpaces(t: Term, n: nat)
    requires t.Valid() && n == 5
    ensures Type(t, 9) == TypeSpaces(t, n)
  {
  }

  lemma {:induction false} SpacesAreBlanks(t: Term, cs: seq<int>)
    requires t.Valid() && forall i :: 0 <= i < |cs| ==> cs[i] == 32
    ensures TypeSpaces(t, |cs|) == TypeAll(t, cs) && TypeAll(t, cs).pos == t.pos + |cs|
    decreases |cs|
  {
    if cs != [] {
      var u := OneBlank(t);
      SpacesAreBlanks(u, cs[1..]);
    }
  }

  lemma OneBlank(t: Term) returns (u: Term)
    requires t.Valid()
    ensures u.Valid() && u == Type(t, 32) == TypePlain(t, 32) && u.pos == t.pos + 1
  {
    u := Type(t, 32);
    PrintableMeans(t, 32);
  }

  predicate IsText(cs: seq<int>) {
    forall i :: 0 <= i < |cs| ==> IsPrintable(cs[i])
  }

  /** From cell `from` on the grid holds this text, black on white. */
  ghost predicate Holds(u: Term, from: nat, cs: seq<int>) {
    from + |cs| <= |u.grid| && forall p :: from <= p < from + |cs| ==> u.grid[p] == 0x0700 + cs[p - from]
  }

  /** Outside [from, to) the cells are as they were. */
  ghost predicate Same(t: Term, u: Term, from: nat, to: nat) {
    forall p: nat :: p < from || to <= p ==> CellAt(u.grid, p) == CellAt(t.grid, p)
  }

  /** Text that stays within its line is written from the cursor on. */
  lemma {:induction false} TextInRow(t: Term, cs: seq<int>)
    requires t.Valid() && IsText(cs) && t.pos % 80 + |cs| < 80
    ensures var u := TypeAll(t, cs);
            && u.pos == t.pos + |cs| && |u.grid| >= |t.grid|
            && Holds(u, t.pos, cs) && Same(t, u, t.pos, t.pos + |cs|)
    decreases |cs|
  {
    if cs != [] {
      var m := OneInRow(t, cs[0]);
      TextInRow(m, cs[1..]);
      OneMoreHeld(t, m, TypeAll(m, cs[1..]), cs);
    }
  }

  lemma OneInRow(t: Term, c: int) returns (u: Term)
    requires t.Valid() && IsPrintable(c) && t.pos % 80 < 79
    ensures u.Valid() && u == Type(t, c)
    ensures u.pos == t.pos + 1 && u.pos % 80 == t.pos % 80 + 1 && u.grid == t.grid[t.pos := 0x0700 + c]
  {
    u := Type(t, c);
    PrintableMeans(t, c);
    InsideRow(t.pos, t.top);
  }

  lemma InsideRow(pos: nat, top: nat)
    requires pos % 80 < 79 && pos < 80 * (top + 25)
    ensures (pos + 1) % 80 == pos % 80 + 1 && pos + 1 < 80 * (top + 25)
  {
    assert pos == 80 * (pos / 80) + pos % 80 && pos / 80 <= top + 24;
  }

  lemma OneMoreHeld(t: Term, m: Term, u: Term, cs: seq<int>)
    requires cs != [] && IsText(cs) && t.pos < |t.grid|
    requires m.grid == t.grid[t.pos := 0x0700 + cs[0]] && m.pos == t.pos + 1
    requires Holds(u, m.pos, cs[1..]) && Same(m, u, m.pos, m.pos + |cs| - 1) && |u.grid| >= |m.grid|
    ensures Holds(u, t.pos, cs) && Same(t, u, t.pos, t.pos + |cs|)
  {
    assert CellAt(u.grid, t.pos) == CellAt(m.grid, t.pos);
    assert forall p :: t.pos < p < t.pos + |cs| ==> u.grid[p] == 0x0700 + cs[1..][p - m.pos];
  }

  /** A line of text and a newline, from the start of a row: the text is in that row, the
      cursor at the start of the next one, and everything else as it was. */
  lemma LineInRow(t: Term, cs: seq<int>, r: nat)
    requires t.Valid() && IsText(cs) && |cs| < 80 && t.pos == 80 * r
    ensures var u := TypeAll(t, cs + [10]);
            u.pos == 80 * (r + 1) && Holds(u, 80 * r, cs) && Same(t, u, 80 * r, 80 * r + |cs|)
  {
    RowStart(t.pos, r);
    TextInRow(t, cs);
    var m := TypeAll(t, cs);
    var u := NewlineFromRow(m, r);
    TypeOneMore(t, cs, 10);
    HeldGrown(t, m, u, t.pos, cs);
  }

  lemma RowStart(pos: nat, r: nat)
    requires pos == 80 * r
    ensures pos % 80 == 0
  {
  }

  lemma TypeOneMore(t: Term, cs: seq<int>, c: int)
    requires t.Valid()
    ensures TypeAll(t, cs + [c]) == Type(TypeAll(t, cs), c)
  {
    TypeAllAppend(t, cs, [c]);
    assert [c][1..] == [];
  }

  lemma HeldGrown(t: Term, m: Term, u: Term, from: nat, cs: seq<int>)
    requires Holds(m, from, cs) && Same(t, m, from, from + |cs|)
    requires m.grid <= u.grid && forall p: nat :: CellAt(u.grid, p) == CellAt(m.grid, p)
    ensures Holds(u, from, cs) && Same(t, u, from, from + |cs|)
  {
  }

  lemma NewlineFromRow(m: Term, r: nat) returns (u: Term)
    requires m.Valid() && 80 * r <= m.pos < 80 * (r + 1)
    ensures u == Type(m, 10) && u.pos == 80 * (r + 1)
    ensures m.grid <= u.grid && forall p: nat :: CellAt(u.grid, p) == CellAt(m.grid, p)
  {
    u := Type(m, 10);
    NewlineMeans(m);
  }

  function LinesText(lines: seq<seq<int>>): seq<int> {
    if lines == [] then [] else LinesText(lines[..|lines| - 1]) + (lines[|lines| - 1] + [10])
  }

  /** From row `r` on each row starts with its line. */
  ghost predicate InRows(u: Term, r: nat, lines: seq<seq<int>>) {
    forall i :: 0 <= i < |lines| ==> Holds(u, 80 * (r + i), lines[i])
  }

  /** Lines of text, each with its newline, end up in consecutive rows, in order. */
  lemma {:induction false} LinesInRows(t: Term, lines: seq<seq<int>>, r: nat)
    requires t.Valid() && t.pos == 80 * r
    requires forall i :: 0 <= i < |lines| ==> IsText(lines[i]) && |lines[i]| < 80
    ensures var u := TypeAll(t, LinesText(lines));
            && u.pos == 80 * (r + |lines|) && Same(t, u, 80 * r, 80 * (r + |lines|))
            && InRows(u, r, lines)
  {
    if lines != [] {
      var init, last := lines[..|lines| - 1], lines[|lines| - 1];
      LinesInRows(t, init, r);
      var m := TypeAll(t, LinesText(init));
      TypeAllAppend(t, LinesText(init), last + [10]);
      NextRow(t, m, r, lines);
    }
  }

  /** One line more. */
  lemma NextRow(t: Term, m: Term, r: nat, lines: seq<seq<int>>)
    requires m.Valid() && lines != [] && m.pos == 80 * (r + |lines| - 1)
    requires IsText(lines[|lines| - 1]) && forall i :: 0 <= i < |lines| ==> |lines[i]| < 80
    requires Same(t, m, 80 * r, 80 * (r + |lines| - 1)) && InRows(m, r, lines[..|lines| - 1])
    ensures var u := TypeAll(m, lines[|lines| - 1] + [10]);
            && u.pos == 80 * (r + |lines|) && Same(t, u, 80 * r, 80 * (r + |lines|))
            && InRows(u, r, lines)
  {
    var last, row := lines[|lines| - 1], r + |lines| - 1;
    LineInRow(m, last, row);
    var u := TypeAll(m, last + [10]);
    SameTwice(t, m, u, 80 * r, 80 * row, 80 * row + |last|);
    RowsStay(m, u, r, lines);
  }

  lemma SameTwice(t: Term, m: Term, u: Term, a: nat, b: nat, c: nat)
    requires Same(t, m, a, b) && Same(m, u, b, c) && a <= b <= c <= b + 80
    ensures Same(t, u, a, b + 80)
  {
  }

  lemma RowsStay(m: Term, u: Term, r: nat, lines: seq<seq<int>>)
    requires lines != [] && forall i :: 0 <= i < |lines| ==> |lines[i]| < 80
    requires InRows(m, r, lines[..|lines| - 1]) && Holds(u, 80 * (r + |lines| - 1), lines[|lines| - 1])
    requires Same(m, u, 80 * (r + |lines| - 1), 80 * (r + |lines| - 1) + |lines[|lines| - 1]|)
    ensures InRows(u, r, lines)
  {
    var init := lines[..|lines| - 1];
    forall i | 0 <= i < |lines| ensures Holds(u, 80 * (r + i), lines[i]) {
      if i < |init| {
        assert Holds(m, 80 * (r + i), init[i]);
        TextStays(m, u, 80 * (r + i), lines[i], 80 * (r + |init|), 80 * (r + |init|) + |lines[|init|]|);
      }
    }
  }

  lemma TextStays(m: Term, u: Term, from: nat, cs: seq<int>, a: nat, b: nat)
    requires Holds(m, from, cs) && Same(m, u, a, b) && from + |cs| <= a <= |u.grid|
    ensures Holds(u, from, cs)
  {
    forall p | from <= p < from + |cs| ensures u.grid[p] == 0x0700 + cs[p - from] {
      assert CellAt(u.grid, p) == CellAt(m.grid, p);
    }
  }

  // ----- The window shows the page -----

  ghost predicate Shows(t: Term, p: Page) {
    t.pos == p.pos && forall k: nat :: CellAt(t.grid, k) == CellAt(p.cells, k)
  }

  /** A backspace in the window's top left corner is the one character the window drops. */
  predicate Dropped(t: Term, c: int) {
    Low(c) == 8 && t.pos == CRT_COLS * t.top && t.pos > 0
  }

  lemma TypePlainShows(t: Term, p: Page, c: int)
    requires t.Valid() && Shows(t, p)
    ensures Shows(TypePlain(t, c), InkPlain(p, c)) <==> !Dropped(t, c)
  {
  }

  lemma {:induction false} SpacesShow(t: Term, p: Page, n: nat)
    requires t.Valid() && Shows(t, p)
    ensures Shows(TypeSpaces(t, n), InkSpaces(p, n))
    decreases n
  {
    if n > 0 {
      TypePlainShows(t, p, 32);
      SpacesShow(TypePlain(t, 32), InkPlain(p, 32), n - 1);
    }
  }

  /** One character keeps window and page in step exactly when it is not dropped. */
  lemma TypeShows(t: Term, p: Page, c: int)
    requires t.Valid() && Shows(t, p)
    ensures Shows(Type(t, c), Ink(p, c)) <==> !Dropped(t, c)
  {
    if Low(c) == 9 {
      SpacesShow(t, p, 5);
    } else {
      TypePlainShows(t, p, c);
    }
  }

  ghost predicate NothingDropped(t: Term, cs: seq<int>)
    requires t.Valid()
    decreases |cs|
  {
    cs == [] || (!Dropped(t, cs[0]) && NothingDropped(Type(t, cs[0]), cs[1..]))
  }

  lemma {:induction false} NothingDroppedAppend(t: Term, cs: seq<int>, ds: seq<int>)
    requires t.Valid()
    ensures NothingDropped(t, cs + ds) <==> NothingDropped(t, cs) && NothingDropped(TypeAll(t, cs), ds)
    decreases |cs|
  {
    if cs == [] {
      assert cs + ds == ds;
    } else {
      assert (cs + ds)[1..] == cs[1..] + ds;
      NothingDroppedAppend(Type(t, cs[0]), cs[1..], ds);
    }
  }

  lemma NothingDroppedOne(t: Term, c: int)
    requires t.Valid()
    ensures NothingDropped(t, [c]) <==> !Dropped(t, c)
  {
    assert [c][1..] == [];
  }

  /** Text without a backspace drops nothing. */
  lemma {:induction false} PlainTextIsNeverDropped(t: Term, cs: seq<int>)
    requires t.Valid() && forall i :: 0 <= i < |cs| ==> Low(cs[i]) != 8
    ensures NothingDropped(t, cs)
    decreases |cs|
  {
    if cs != [] {
      PlainTextIsNeverDropped(Type(t, cs[0]), cs[1..]);
    }
  }

  /** Over every run the window is the last lines of the unbounded page. */
  lemma {:induction false} WindowShowsPage(t: Term, p: Page, cs: seq<int>)
    requires t.Valid() && Shows(t, p) && NothingDropped(t, cs)
    ensures var u, q := TypeAll(t, cs), InkAll(p, cs);
            && Shows(u, q)
            && CRT_COLS * u.top <= q.pos < CRT_COLS * u.top + CRT_SIZE
            && forall i :: 0 <= i < CRT_SIZE ==> u.Window()[i] == CellAt(q.cells, CRT_COLS * u.top + i)
    decreases |cs|
  {
    if cs == [] {
      assert forall i :: 0 <= i < CRT_SIZE ==> t.Window()[i] == CellAt(t.grid, CRT_COLS * t.top + i);
    } else {
      TypeShows(t, p, cs[0]);
      WindowShowsPage(Type(t, cs[0]), Ink(p, cs[0]), cs[1..]);
    }
  }

  /** Window and page agree after the first `k` characters. */
  ghost predicate InStep(t: Term, p: Page, cs: seq<int>, k: nat)
    requires t.Valid() && k <= |cs|
  {
    Shows(TypeAll(t, cs[..k]), InkAll(p, cs[..k]))
  }

  lemma StepInside(t: Term, p: Page, cs: seq<int>, k: nat)
    requires t.Valid() && k < |cs|
    ensures InStep(t, p, cs, k + 1) <==> InStep(Type(t, cs[0]), Ink(p, cs[0]), cs[1..], k)
  {
    assert cs[..k + 1][1..] == cs[1..][..k];
  }

  /** Over a run, window and page agree at every moment exactly when nothing is dropped. */
  lemma {:induction false} InStepIffNothingDropped(t: Term, p: Page, cs: seq<int>)
    requires t.Valid() && Shows(t, p)
    ensures NothingDropped(t, cs) <==> forall k: nat :: k <= |cs| ==> InStep(t, p, cs, k)
    decreases |cs|
  {
    if cs != [] {
      var u, q := Type(t, cs[0]), Ink(p, cs[0]);
      TypeShows(t, p, cs[0]);
      forall k: nat | k < |cs| ensures InStep(t, p, cs, k + 1) <==> InStep(u, q, cs[1..], k) {
        StepInside(t, p, cs, k);
      }
      assert InStep(u, q, cs[1..], 0) <==> Shows(u, q);
      if Shows(u, q) {
        InStepIffNothingDropped(u, q, cs[1..]);
        assert forall k: nat :: 0 < k <= |cs| ==> (InStep(t, p, cs, k) <==> InStep(u, q, cs[1..], k - 1));
      }
      assert InStep(t, p, cs, 0 + 1) <==> Shows(u, q);
    }
  }

  ghost predicate KeepsHistory(t: Term, u: Term) {
    t.Valid() && u.Valid() && t.top <= u.top && forall k :: 0 <= k < CRT_COLS * t.top ==> u.grid[k] == t.grid[k]
  }

  lemma {:induction false} SpacesKeepHistory(t: Term, n: nat)
    requires t.Valid()
    ensures KeepsHistory(t, TypeSpaces(t, n))
    decreases n
  {
    if n > 0 {
      PlainKeepsHistory(t, 32);
      SpacesKeepHistory(TypePlain(t, 32), n - 1);
    }
  }

  lemma PlainKeepsHistory(t: Term, c: int)
    requires t.Valid()
    ensures KeepsHistory(t, TypePlain(t, c))
  {
  }

  /** Lines that have left the window are never touched again. */
  lemma {:induction false} HistoryIsKept(t: Term, cs: seq<int>)
    requires t.Valid()
    ensures KeepsHistory(t, TypeAll(t, cs))
    decreases |cs|
  {
    if cs != [] {
      if Low(cs[0]) == 9 {
        SpacesKeepHistory(t, 5);
      } else {
        PlainKeepsHistory(t, cs[0]);
      }
      HistoryIsKept(Type(t, cs[0]), cs[1..]);
    }
  }

  /** Every line of the unbounded page that has scrolled off the window is final: whatever is
      typed later, it stays as it was shown last. */
  lemma PageAboveWindowIsFinal(t: Term, p: Page, cs: seq<int>)
    requires t.Valid() && Shows(t, p) && NothingDropped(t, cs)
    ensures forall k :: 0 <= k < CRT_COLS * t.top ==> CellAt(InkAll(p, cs).cells, k) == CellAt(p.cells, k)
  {
    HistoryIsKept(t, cs);
    WindowShowsPage(t, p, cs);
    var u := TypeAll(t, cs);
    forall k | 0 <= k < CRT_COLS * t.top ensures CellAt(InkAll(p, cs).cells, k) == CellAt(p.cells, k) {
      assert u.grid[k] == t.grid[k];
    }
  }
}
