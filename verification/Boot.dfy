/** The boot loader: reads the kernel image from disk into physical memory, sector by sector. */
module Boot {
  import opened Machine

  const SECTSIZE := 512
  const ELFHDR := 0x1_0000
  const PAGE := 8 * SECTSIZE
  const ELF_MAGIC: uint32 := 0x464C_457F

  /** A disk, byte by byte. */
  type Disk = nat -> uint8

  /** The kernel image starts at sector 1. */
  function Image(disk: Disk, x: nat): uint8 {
    disk(SECTSIZE + x)
  }

  function Down(x: nat): (d: nat)
    ensures d <= x < d + SECTSIZE && d % SECTSIZE == 0
  {
    x - x % SECTSIZE
  }

  function Up(x: nat): nat {
    Down(x + SECTSIZE - 1)
  }

  lemma UpFacts(x: nat)
    ensures Up(x) % SECTSIZE == 0 && x <= Up(x) < x + SECTSIZE
  {
  }

  // ----- One segment -----

  /** Reads sector `sector`, whose number must fit the 28 bits sent to the disk, to `dst`. */
  method Readsect(mem: array<uint8>, disk: Disk, dst: nat, sector: nat)
    requires dst + SECTSIZE <= mem.Length && sector < 0x1000_0000
    modifies mem
    ensures forall x :: dst <= x < dst + SECTSIZE ==> mem[x] == disk(SECTSIZE * sector + (x - dst))
    ensures forall x :: 0 <= x < mem.Length && !(dst <= x < dst + SECTSIZE) ==> mem[x] == old(mem[x])
  {
    ghost var was := mem[..];
    var k := 0;
    while k < SECTSIZE
      invariant 0 <= k <= SECTSIZE
      invariant forall x :: dst <= x < dst + k ==> mem[x] == disk(SECTSIZE * sector + (x - dst))
      invariant forall x :: 0 <= x < mem.Length && !(dst <= x < dst + k) ==> mem[x] == was[x]
    {
      mem[dst + k] := disk(SECTSIZE * sector + k);
      k := k + 1;
    }
  }

  /** The byte that reading from `offset` to `pa` puts at `x`. */
  function Delivered(disk: Disk, pa: nat, offset: nat, x: nat): uint8
    requires Down(pa) <= x
  {
    disk(SECTSIZE * (offset / SECTSIZE + 1) + (x - Down(pa)))
  }

  /** From `was` to `now` the sectors of [pa, pa + count) were read, up to `end`. */
  ghost predicate Read(was: seq<uint8>, now: seq<uint8>, disk: Disk, pa: nat, offset: nat, end: nat)
    requires |was| == |now|
  {
    && (forall x :: Down(pa) <= x < end && x < |now| ==> now[x] == Delivered(disk, pa, offset, x))
    && (forall x :: 0 <= x < |now| && !(Down(pa) <= x < end) ==> now[x] == was[x])
  }

  /** Where reading stops: the end address wraps at 2^32. */
  function EndOf(pa: uint32, count: uint32): nat {
    var endPa := (pa + count) % WORD_SIZE;
    if Down(pa) < endPa then Up(endPa) else Down(pa)
  }

  lemma EndWithoutWrap(pa: uint32, count: uint32)
    requires pa + count < WORD_SIZE
    ensures EndOf(pa, count) == Up(pa + count)
  {
    UpFacts(pa + count);
    if Down(pa) == pa + count {
      assert Up(Down(pa)) == Down(pa);
    }
  }

  /** Reads `count` bytes at `offset` of the kernel to `pa`, and the rest of their sectors. */
  method Readseg(mem: array<uint8>, disk: Disk, pa0: uint32, count: uint32, offset0: uint32)
    requires EndOf(pa0, count) <= mem.Length < WORD_SIZE
    modifies mem
    ensures Read(old(mem[..]), mem[..], disk, pa0, offset0, EndOf(pa0, count))
  {
    ghost var was := mem[..];
    var endPa: uint32 := (pa0 + count) % WORD_SIZE;
    var pa := Down(pa0);
    var offset := offset0 / SECTSIZE + 1;
    ghost var end := EndOf(pa0, count);
    while pa < endPa
      invariant Down(pa0) <= pa <= end && pa % SECTSIZE == 0
      invariant SECTSIZE * offset == SECTSIZE * (offset0 / SECTSIZE + 1) + (pa - Down(pa0))
      invariant Read(was, mem[..], disk, pa0, offset0, pa)
      decreases endPa - pa
    {
      BeforeEnd(pa0, count, pa);
      ghost var before := mem[..];
      Readsect(mem, disk, pa, offset);
      NextSector(was, before, mem[..], disk, pa0, offset0, pa, offset);
      pa := pa + SECTSIZE;
      offset := offset + 1;
    }
    BeforeEnd(pa0, count, pa);
  }

  /** At a sector boundary short of the end there is a whole sector to go. */
  lemma BeforeEnd(pa0: uint32, count: uint32, pa: nat)
    requires Down(pa0) <= pa <= EndOf(pa0, count) && pa % SECTSIZE == 0
    ensures if pa < (pa0 + count) % WORD_SIZE then pa + SECTSIZE <= EndOf(pa0, count) else pa == EndOf(pa0, count)
  {
    NextBoundary((pa0 + count) % WORD_SIZE, pa);
  }

  lemma NextBoundary(x: nat, pa: nat)
    requires pa % SECTSIZE == 0
    ensures pa < x ==> pa + SECTSIZE <= Up(x)
    ensures x <= pa <= Up(x) ==> pa == Up(x)
  {
    UpFacts(x);
  }

  lemma NextSector(was: seq<uint8>, before: seq<uint8>, now: seq<uint8>, disk: Disk, pa0: nat, offset0: nat, pa: nat,
                   sector: nat)
    requires |was| == |before| == |now| && Down(pa0) <= pa
    requires Read(was, before, disk, pa0, offset0, pa)
    requires SECTSIZE * sector == SECTSIZE * (offset0 / SECTSIZE + 1) + (pa - Down(pa0))
    requires forall x :: pa <= x < pa + SECTSIZE && x < |now| ==> now[x] == disk(SECTSIZE * sector + (x - pa))
    requires forall x :: 0 <= x < |now| && !(pa <= x < pa + SECTSIZE) ==> now[x] == before[x]
    ensures Read(was, now, disk, pa0, offset0, pa + SECTSIZE)
  {
  }

  /** The bytes asked for arrive where they were asked for, from every disk, exactly when
      address and offset agree within a sector. */
  lemma DeliversIff(pa: nat, count: nat, offset: nat)
    ensures (forall disk: Disk, x: nat :: pa <= x < pa + count ==>
               Delivered(disk, pa, offset, x) == Image(disk, offset + (x - pa)))
            <==> count == 0 || pa % 512 == offset % 512
  {
    if count == 0 || pa % SECTSIZE == offset % SECTSIZE {
      forall disk: Disk, x: nat | pa <= x < pa + count
        ensures Delivered(disk, pa, offset, x) == Image(disk, offset + (x - pa))
      {
        DeliveredAt(disk, pa, offset, x);
      }
    } else {
      var mark: Disk := (x: nat) => if x == SECTSIZE + offset then 1 else 0;
      DeliveredAt(mark, pa, offset, pa);
      assert Delivered(mark, pa, offset, pa) != Image(mark, offset + (pa - pa));
    }
  }

  lemma DeliveredAt(disk: Disk, pa: nat, offset: nat, x: nat)
    requires pa <= x
    ensures Delivered(disk, pa, offset, x)
            == disk(SECTSIZE + (offset - offset % SECTSIZE) + pa % SECTSIZE + (x - pa))
  {
  }

  // ----- The whole kernel -----

  /** A program header: where the segment goes, how long it is, where it is in the image. */
  datatype Segment = Segment(pa: uint32, memsz: uint32, offset: uint32)

  function Half(lo: uint8, hi: uint8): uint16 {
    (lo as int) + 0x100 * (hi as int)
  }

  function Full(lo: uint16, hi: uint16): uint32 {
    (lo as int) + 0x1_0000 * (hi as int)
  }

  function ImageHalf(disk: Disk, x: nat): uint16 {
    Half(Image(disk, x), Image(disk, x + 1))
  }

  function ImageWord(disk: Disk, x: nat): uint32 {
    Full(ImageHalf(disk, x), ImageHalf(disk, x + 2))
  }

  function MemHalf(m: seq<uint8>, a: nat): uint16
    requires a + 2 <= |m|
  {
    Half(m[a], m[a + 1])
  }

  function MemWord(m: seq<uint8>, a: nat): uint32
    requires a + 4 <= |m|
  {
    Full(MemHalf(m, a), MemHalf(m, a + 2))
  }

  // Field positions in the ELF header and in a program header of 32 bytes.
  const E_ENTRY := 24
  const E_PHOFF := 28
  const E_PHNUM := 44
  const P_OFFSET := 4
  const P_PA := 12
  const P_MEMSZ := 20
  const PHSIZE := 32

  function PhNum(disk: Disk): nat {
    ImageHalf(disk, E_PHNUM)
  }

  function SegmentAt(disk: Disk, i: nat): Segment {
    var ph := ImageWord(disk, E_PHOFF) + PHSIZE * i;
    Segment(ImageWord(disk, ph + P_PA), ImageWord(disk, ph + P_MEMSZ), ImageWord(disk, ph + P_OFFSET))
  }

  /** The addresses whose sectors are read for a segment. */
  predicate Covers(s: Segment, x: int) {
    Down(s.pa) <= x < Up(s.pa + s.memsz)
  }

  predicate InHeaderPage(x: int) {
    ELFHDR <= x < ELFHDR + PAGE
  }

  /** What the loader relies on. */
  ghost predicate Loadable(disk: Disk, size: nat) {
    && ImageWord(disk, E_PHOFF) + PHSIZE * PhNum(disk) <= PAGE
    && (forall i: nat :: i < PhNum(disk) ==> Placed(SegmentAt(disk, i), size))
    && (forall i: nat, j: nat :: i < PhNum(disk) && j < PhNum(disk) ==>
          Compatible(SegmentAt(disk, i), SegmentAt(disk, j)))
  }

  /** Address and offset agree within a sector; the sectors fit memory and spare the header page. */
  ghost predicate Placed(s: Segment, size: nat) {
    && Congruent(s)
    && Up(s.pa + s.memsz) <= size
    && forall x :: !(Covers(s, x) && InHeaderPage(x))
  }

  /** Segments that share a sector come from the same stretch of the image. */
  ghost predicate Compatible(s: Segment, t: Segment) {
    s.pa - s.offset == t.pa - t.offset || forall x :: !(Covers(s, x) && Covers(t, x))
  }

  predicate Congruent(s: Segment) {
    s.pa % SECTSIZE == s.offset % SECTSIZE
  }

  /** Every byte of the segment's sectors is the image byte that belongs there. */
  ghost predicate Loaded(m: seq<uint8>, disk: Disk, s: Segment) {
    && Congruent(s)
    && forall x :: Covers(s, x) && x < |m| ==> m[x] == Image(disk, s.offset + (x - Down(s.pa)) - s.pa % SECTSIZE)
  }

  ghost predicate HeaderLoaded(m: seq<uint8>, disk: Disk) {
    |m| >= ELFHDR + PAGE && forall x :: InHeaderPage(x) ==> m[x] == Image(disk, x - ELFHDR)
  }

  ghost predicate Spared(disk: Disk, n: nat, x: int) {
    forall i: nat :: i < n ==> !Covers(SegmentAt(disk, i), x)
  }

  /** Nothing changed outside the header page and the sectors of the first `n` segments. */
  ghost predicate OnlySectors(was: seq<uint8>, now: seq<uint8>, disk: Disk, n: nat) {
    |was| == |now| && forall x :: 0 <= x < |now| && !InHeaderPage(x) && Spared(disk, n, x) ==> now[x] == was[x]
  }

  ghost predicate AllLoaded(m: seq<uint8>, disk: Disk, n: nat) {
    forall i: nat :: i < n ==> Loaded(m, disk, SegmentAt(disk, i))
  }

  /** The header page and the first `n` segments are in place, and nothing else changed. */
  ghost predicate LoadedSoFar(was: seq<uint8>, now: seq<uint8>, disk: Disk, n: nat) {
    HeaderLoaded(now, disk) && OnlySectors(was, now, disk, n) && AllLoaded(now, disk, n)
  }

  /** Nothing changed outside the segment's sectors. */
  ghost predicate OnlyCovered(was: seq<uint8>, now: seq<uint8>, s: Segment) {
    |was| == |now| && forall x :: 0 <= x < |now| && !Covers(s, x) ==> now[x] == was[x]
  }

  lemma ReadLoads(was: seq<uint8>, now: seq<uint8>, disk: Disk, s: Segment)
    requires |was| == |now| && Congruent(s)
    requires Read(was, now, disk, s.pa, s.offset, Up(s.pa + s.memsz))
    ensures Loaded(now, disk, s) && OnlyCovered(was, now, s)
  {
  }

  /** Loading one more segment keeps those already loaded. */
  lemma StaysLoaded(was: seq<uint8>, now: seq<uint8>, disk: Disk, s: Segment, t: Segment)
    requires Loaded(was, disk, s) && Loaded(now, disk, t) && Compatible(s, t) && OnlyCovered(was, now, t)
    ensures Loaded(now, disk, s)
  {
  }

  lemma HeaderFields(m: seq<uint8>, disk: Disk, x: nat)
    requires HeaderLoaded(m, disk) && x + 4 <= PAGE
    ensures MemWord(m, ELFHDR + x) == ImageWord(disk, x)
    ensures MemHalf(m, ELFHDR + x) == ImageHalf(disk, x)
  {
  }

  /** Reads the header page and every segment; answers the entry point, or None when the
      image is not an ELF file. */
  method Bootmain(mem: array<uint8>, disk: Disk) returns (entry: Option<uint32>)
    requires ELFHDR + PAGE <= mem.Length < WORD_SIZE
    requires ImageWord(disk, 0) == ELF_MAGIC ==> Loadable(disk, mem.Length)
    modifies mem
    ensures entry == if ImageWord(disk, 0) == ELF_MAGIC then Some(ImageWord(disk, E_ENTRY)) else None
    ensures LoadedSoFar(old(mem[..]), mem[..], disk, if entry.Some? then PhNum(disk) else 0)
  {
    ghost var was := mem[..];
    ReadHeader(mem, disk);
    HeaderFields(mem[..], disk, 0);
    if MemWord(mem[..], ELFHDR) != ELF_MAGIC {
      return None;
    }
    LoadAll(mem, disk, was);
    HeaderFields(mem[..], disk, E_ENTRY);
    entry := Some(MemWord(mem[..], ELFHDR + E_ENTRY));
  }

  /** Reads the first page of the image, where the headers are. */
  method ReadHeader(mem: array<uint8>, disk: Disk)
    requires ELFHDR + PAGE <= mem.Length < WORD_SIZE
    modifies mem
    ensures LoadedSoFar(old(mem[..]), mem[..], disk, 0)
  {
    assert EndOf(ELFHDR, PAGE) == ELFHDR + PAGE;
    Readseg(mem, disk, ELFHDR, PAGE, 0);
    HeaderPageRead(old(mem[..]), mem[..], disk);
  }

  /** The loop over the program headers. */
  method LoadAll(mem: array<uint8>, disk: Disk, ghost was: seq<uint8>)
    requires ELFHDR + PAGE <= mem.Length < WORD_SIZE && Loadable(disk, mem.Length)
    requires LoadedSoFar(was, mem[..], disk, 0)
    modifies mem
    ensures LoadedSoFar(was, mem[..], disk, PhNum(disk))
  {
    HeaderFields(mem[..], disk, E_PHOFF);
    HeaderFields(mem[..], disk, E_PHNUM);
    var ph := ELFHDR + MemWord(mem[..], ELFHDR + E_PHOFF);
    var eph := ph + PHSIZE * MemHalf(mem[..], ELFHDR + E_PHNUM);
    ghost var n: nat := 0;
    while ph < eph
      invariant n <= PhNum(disk) && eph == ph + PHSIZE * (PhNum(disk) - n)
      invariant ph == ELFHDR + ImageWord(disk, E_PHOFF) + PHSIZE * n
      invariant LoadedSoFar(was, mem[..], disk, n)
      decreases eph - ph
    {
      LoadSegment(mem, disk, ph, n, was);
      ph, n := ph + PHSIZE, n + 1;
    }
  }

  /** One turn of the loop over the program headers. */
  method LoadSegment(mem: array<uint8>, disk: Disk, ph: nat, ghost n: nat, ghost was: seq<uint8>)
    requires ELFHDR + PAGE <= mem.Length < WORD_SIZE && Loadable(disk, mem.Length) && n < PhNum(disk)
    requires ph == ELFHDR + ImageWord(disk, E_PHOFF) + PHSIZE * n
    requires LoadedSoFar(was, mem[..], disk, n)
    modifies mem
    ensures LoadedSoFar(was, mem[..], disk, n + 1)
  {
    SegmentFields(mem[..], disk, n);
    ReadSegment(mem, disk, MemWord(mem[..], ph + P_PA), MemWord(mem[..], ph + P_MEMSZ), MemWord(mem[..], ph + P_OFFSET),
                n, was);
  }

  method ReadSegment(mem: array<uint8>, disk: Disk, pa: uint32, memsz: uint32, offset: uint32,
                     ghost n: nat, ghost was: seq<uint8>)
    requires mem.Length < WORD_SIZE && Loadable(disk, mem.Length) && n < PhNum(disk)
    requires SegmentAt(disk, n) == Segment(pa, memsz, offset)
    requires LoadedSoFar(was, mem[..], disk, n)
    modifies mem
    ensures LoadedSoFar(was, mem[..], disk, n + 1)
  {
    ghost var before := mem[..];
    PlacedAt(disk, mem.Length, n);
    ReadPlaced(mem, disk, pa, memsz, offset, SegmentAt(disk, n));
    OneMore(was, before, mem[..], disk, n);
  }

  /** The call for a segment that is placed: its end does not wrap. */
  method ReadPlaced(mem: array<uint8>, disk: Disk, pa: uint32, memsz: uint32, offset: uint32, ghost s: Segment)
    requires s == Segment(pa, memsz, offset) && Placed(s, mem.Length) && mem.Length < WORD_SIZE
    modifies mem
    ensures Loaded(mem[..], disk, s) && OnlyCovered(old(mem[..]), mem[..], s)
  {
    ghost var before := mem[..];
    EndWithoutWrap(pa, memsz);
    Readseg(mem, disk, pa, memsz, offset);
    ReadLoads(before, mem[..], disk, s);
  }

  lemma PlacedAt(disk: Disk, size: nat, n: nat)
    requires Loadable(disk, size) && n < PhNum(disk)
    ensures Placed(SegmentAt(disk, n), size)
  {
  }

  lemma CompatibleAt(disk: Disk, size: nat, i: nat, j: nat)
    requires Loadable(disk, size) && i < PhNum(disk) && j < PhNum(disk)
    ensures Compatible(SegmentAt(disk, i), SegmentAt(disk, j))
  {
  }

  lemma HeaderPageRead(was: seq<uint8>, now: seq<uint8>, disk: Disk)
    requires |was| == |now| && ELFHDR + PAGE <= |now|
    requires Read(was, now, disk, ELFHDR, 0, ELFHDR + PAGE)
    ensures LoadedSoFar(was, now, disk, 0)
  {
  }

  lemma SegmentFields(m: seq<uint8>, disk: Disk, n: nat)
    requires HeaderLoaded(m, disk) && n < PhNum(disk)
    requires ImageWord(disk, E_PHOFF) + PHSIZE * PhNum(disk) <= PAGE
    ensures var ph, s := ELFHDR + ImageWord(disk, E_PHOFF) + PHSIZE * n, SegmentAt(disk, n);
            && ph + PHSIZE <= ELFHDR + PAGE
            && MemWord(m, ph + P_PA) == s.pa && MemWord(m, ph + P_MEMSZ) == s.memsz
            && MemWord(m, ph + P_OFFSET) == s.offset
  {
    var x := ImageWord(disk, E_PHOFF) + PHSIZE * n;
    HeaderFields(m, disk, x + P_PA);
    HeaderFields(m, disk, x + P_MEMSZ);
    HeaderFields(m, disk, x + P_OFFSET);
  }

  lemma OneMore(was: seq<uint8>, before: seq<uint8>, now: seq<uint8>, disk: Disk, n: nat)
    requires Loadable(disk, |now|) && n < PhNum(disk) && LoadedSoFar(was, before, disk, n)
    requires Placed(SegmentAt(disk, n), |now|) && Loaded(now, disk, SegmentAt(disk, n))
    requires OnlyCovered(before, now, SegmentAt(disk, n))
    ensures LoadedSoFar(was, now, disk, n + 1)
  {
    EarlierStay(before, now, disk, n);
    HeaderStays(before, now, disk, SegmentAt(disk, n));
    SectorsMore(was, before, now, disk, n);
  }

  lemma EarlierStay(before: seq<uint8>, now: seq<uint8>, disk: Disk, n: nat)
    requires Loadable(disk, |now|) && n < PhNum(disk) && AllLoaded(before, disk, n)
    requires Loaded(now, disk, SegmentAt(disk, n)) && OnlyCovered(before, now, SegmentAt(disk, n))
    ensures AllLoaded(now, disk, n + 1)
  {
    forall i: nat | i < n + 1 ensures Loaded(now, disk, SegmentAt(disk, i)) {
      if i < n {
        CompatibleAt(disk, |now|, i, n);
        StaysLoaded(before, now, disk, SegmentAt(disk, i), SegmentAt(disk, n));
      }
    }
  }

  lemma HeaderStays(before: seq<uint8>, now: seq<uint8>, disk: Disk, s: Segment)
    requires HeaderLoaded(before, disk) && Placed(s, |now|) && OnlyCovered(before, now, s)
    ensures HeaderLoaded(now, disk)
  {
    forall x | InHeaderPage(x) ensures now[x] == before[x] {
      assert !(Covers(s, x) && InHeaderPage(x));
    }
  }

  lemma SectorsMore(was: seq<uint8>, before: seq<uint8>, now: seq<uint8>, disk: Disk, n: nat)
    requires OnlySectors(was, before, disk, n) && OnlyCovered(before, now, SegmentAt(disk, n))
    ensures OnlySectors(was, now, disk, n + 1)
  {
  }

  /** The bytes a segment asked for are the image bytes at its offset. */
  lemma LoadedMeans(m: seq<uint8>, disk: Disk, s: Segment)
    requires Placed(s, |m|) && Loaded(m, disk, s)
    ensures forall x :: s.pa <= x < s.pa + s.memsz ==> m[x] == disk(512 + s.offset + (x - s.pa))
  {
  }

  // ----- The layout of the headers -----

  function Bytes2(v: uint16): seq<uint8> {
    [v % 0x100, v / 0x100]
  }

  function Bytes4(v: uint32): seq<uint8> {
    Bytes2(v % 0x1_0000) + Bytes2(v / 0x1_0000)
  }

  /** An ELF header, with its fields in the order in which they stand in the file. */
  datatype ElfHeader = ElfHeader(
    magic: uint32, ident: seq<uint8>, etype: uint16, machine: uint16, version: uint32, entry: uint32, phoff: uint32,
    shoff: uint32, flags: uint32, ehsize: uint16, phentsize: uint16, phnum: uint16, shentsize: uint16, shnum: uint16,
    shstrndx: uint16)

  function HeaderBytes(h: ElfHeader): seq<uint8> {
    Bytes4(h.magic) + h.ident + Bytes2(h.etype) + Bytes2(h.machine) + Bytes4(h.version) + Bytes4(h.entry)
    + Bytes4(h.phoff) + Bytes4(h.shoff) + Bytes4(h.flags) + Bytes2(h.ehsize) + Bytes2(h.phentsize) + Bytes2(h.phnum)
    + Bytes2(h.shentsize) + Bytes2(h.shnum) + Bytes2(h.shstrndx)
  }

  /** A program header, likewise. */
  datatype ProgramHeader = ProgramHeader(
    ptype: uint32, offset: uint32, va: uint32, pa: uint32, filesz: uint32, memsz: uint32, flags: uint32, align: uint32)

  function ProgramBytes(p: ProgramHeader): seq<uint8> {
    Bytes4(p.ptype) + Bytes4(p.offset) + Bytes4(p.va) + Bytes4(p.pa) + Bytes4(p.filesz) + Bytes4(p.memsz)
    + Bytes4(p.flags) + Bytes4(p.align)
  }

  /** The image, which starts in the disk's second sector, has these bytes at `x`. */
  ghost predicate ImageHas(disk: Disk, x: nat, bytes: seq<uint8>) {
    forall k :: 0 <= k < |bytes| ==> disk(512 + x + k) == bytes[k]
  }

  lemma HalfAt(disk: Disk, x: nat, v: uint16)
    requires ImageHas(disk, x, Bytes2(v))
    ensures ImageHalf(disk, x) == v
  {
    assert Bytes2(v)[0] == v % 0x100 && Bytes2(v)[1] == v / 0x100;
  }

  lemma WordAt(disk: Disk, x: nat, v: uint32)
    requires ImageHas(disk, x, Bytes4(v))
    ensures ImageWord(disk, x) == v
  {
    var lo, hi := Bytes2(v % 0x1_0000), Bytes2(v / 0x1_0000);
    FieldAt(disk, x, Bytes4(v), [], lo);
    FieldAt(disk, x, Bytes4(v), lo, hi);
    assert |lo| == 2;
    HalfAt(disk, x, v % 0x1_0000);
    HalfAt(disk, x + 2, v / 0x1_0000);
  }

  /** A field behind those before it. */
  lemma FieldAt(disk: Disk, x: nat, bytes: seq<uint8>, before: seq<uint8>, field: seq<uint8>)
    requires ImageHas(disk, x, bytes) && before + field <= bytes
    ensures ImageHas(disk, x + |before|, field)
  {
    forall k | 0 <= k < |field| ensures disk(512 + (x + |before|) + k) == field[k] {
      assert bytes[|before| + k] == (before + field)[|before| + k] == field[k];
      assert disk(512 + x + (|before| + k)) == bytes[|before| + k];
    }
  }

  /** The loader takes magic number, entry point and the place and number of the program
      headers from where the header has them. */
  lemma HeaderFieldsAre(disk: Disk, h: ElfHeader)
    requires |h.ident| == 12 && ImageHas(disk, 0, HeaderBytes(h))
    ensures ImageWord(disk, 0) == h.magic && ImageWord(disk, E_ENTRY) == h.entry
    ensures ImageWord(disk, E_PHOFF) == h.phoff && PhNum(disk) == h.phnum
  {
    var bytes := HeaderBytes(h);
    var a := Bytes4(h.magic) + h.ident + Bytes2(h.etype) + Bytes2(h.machine) + Bytes4(h.version);
    var b := a + Bytes4(h.entry);
    var c := b + Bytes4(h.phoff) + Bytes4(h.shoff) + Bytes4(h.flags) + Bytes2(h.ehsize) + Bytes2(h.phentsize);
    assert [] + Bytes4(h.magic) <= a <= b <= b + Bytes4(h.phoff) <= c <= c + Bytes2(h.phnum) <= bytes;
    assert |a| == 24 && |b| == 28 && |c| == 44;
    FieldAt(disk, 0, bytes, [], Bytes4(h.magic));
    FieldAt(disk, 0, bytes, a, Bytes4(h.entry));
    FieldAt(disk, 0, bytes, b, Bytes4(h.phoff));
    FieldAt(disk, 0, bytes, c, Bytes2(h.phnum));
    WordAt(disk, 0, h.magic);
    WordAt(disk, 24, h.entry);
    WordAt(disk, 28, h.phoff);
    HalfAt(disk, 44, h.phnum);
  }

  /** The i-th program header, 32 bytes each from phoff on, tells where its segment goes, how
      long it is, and where it is in the image. */
  lemma SegmentIs(disk: Disk, i: nat, p: ProgramHeader)
    requires ImageHas(disk, ImageWord(disk, E_PHOFF) + 32 * i, ProgramBytes(p))
    ensures SegmentAt(disk, i) == Segment(p.pa, p.memsz, p.offset)
  {
    var x := ImageWord(disk, E_PHOFF) + 32 * i;
    ProgramFieldsAre(disk, x, p);
    SegmentFrom(disk, i, x);
  }

  lemma SegmentFrom(disk: Disk, i: nat, x: nat)
    requires x == ImageWord(disk, E_PHOFF) + 32 * i
    ensures SegmentAt(disk, i)
            == Segment(ImageWord(disk, x + P_PA), ImageWord(disk, x + P_MEMSZ), ImageWord(disk, x + P_OFFSET))
  {
  }

  lemma ProgramFieldsAre(disk: Disk, x: nat, p: ProgramHeader)
    requires ImageHas(disk, x, ProgramBytes(p))
    ensures ImageWord(disk, x + P_OFFSET) == p.offset && ImageWord(disk, x + P_PA) == p.pa
    ensures ImageWord(disk, x + P_MEMSZ) == p.memsz
  {
    var bytes := ProgramBytes(p);
    var a := Bytes4(p.ptype);
    var b := a + Bytes4(p.offset) + Bytes4(p.va);
    var c := b + Bytes4(p.pa) + Bytes4(p.filesz);
    assert a + Bytes4(p.offset) <= b <= b + Bytes4(p.pa) <= c <= c + Bytes4(p.memsz) <= bytes;
    assert |a| == 4 && |b| == 12 && |c| == 20;
    FieldAt(disk, x, bytes, a, Bytes4(p.offset));
    FieldAt(disk, x, bytes, b, Bytes4(p.pa));
    FieldAt(disk, x, bytes, c, Bytes4(p.memsz));
    WordAt(disk, x + 4, p.offset);
    WordAt(disk, x + 12, p.pa);
    WordAt(disk, x + 20, p.memsz);
  }

  /** The magic number is 0x7F and the letters ELF. */
  lemma MagicIs(disk: Disk)
    ensures ImageWord(disk, 0) == ELF_MAGIC
            <==> disk(512) == 0x7F && disk(513) == 0x45 && disk(514) == 0x4C && disk(515) == 0x46
  {
    FullIs(ImageHalf(disk, 0), ImageHalf(disk, 2), 0x457F, 0x464C);
    HalfIs(disk(512), disk(513), 0x7F, 0x45);
    HalfIs(disk(514), disk(515), 0x4C, 0x46);
  }

  lemma HalfIs(lo: uint8, hi: uint8, a: uint8, b: uint8)
    ensures Half(lo, hi) == (a as int) + 0x100 * (b as int) <==> lo == a && hi == b
  {
  }

  lemma FullIs(lo: uint16, hi: uint16, a: uint16, b: uint16)
    ensures Full(lo, hi) == (a as int) + 0x1_0000 * (b as int) <==> lo == a && hi == b
  {
  }

  /** What the loader leaves in memory, byte by byte: the first page of the image at 0x10000, and
      nothing changed outside it and the sectors of the segments. */
  lemma HeaderPageIs(was: seq<uint8>, now: seq<uint8>, disk: Disk, n: nat)
    requires LoadedSoFar(was, now, disk, n)
    ensures |now| == |was| && 0x1_1000 <= |now|
    ensures forall x :: 0x1_0000 <= x < 0x1_1000 ==> now[x] == disk(512 + (x - 0x1_0000))
    ensures forall x :: 0 <= x < |now| && !(0x1_0000 <= x < 0x1_1000) && Spared(disk, n, x) ==> now[x] == was[x]
  {
  }
}
