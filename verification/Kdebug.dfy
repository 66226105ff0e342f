/** Turning an instruction address into file, function and argument count. */
module Kdebug {
  import opened Machine
  import opened StabSearch
  import Strings

  const N_FUN: uint8 := 0x24
  const N_SO: uint8 := 0x64
  const N_SOL: uint8 := 0x84
  const N_PSYM: uint8 := 0xA0
  const ULIM: uint32 := 0xEF80_0000

  /** A name is the built-in text "<unknown>" or an offset into the string table. */
  datatype Name = Unknown | InTable(offset: nat)

  datatype EipInfo = EipInfo(file: Name, line: int, fnName: Name, fnNameLen: nat, fnAddr: uint32, fnNarg: nat)

  /** `OutOfTable` stands for the read of stabs[-1] that the code performs when the file
      search answers -1. */
  datatype Outcome = Panicked | Returned(code: int) | OutOfTable

  datatype Answer = Answer(outcome: Outcome, info: EipInfo)

  predicate GoodStrings(strtab: seq<uint8>) {
    |strtab| > 0 && strtab[|strtab| - 1] == 0
  }

  function NameOf(strtab: seq<uint8>, strx: uint32): Name {
    if strx < |strtab| then InTable(strx) else Unknown
  }

  /** The length of a name up to its colon. */
  function NameLen(strtab: seq<uint8>, name: Name): nat
    requires GoodStrings(strtab) && (name.InTable? ==> name.offset < |strtab|)
  {
    match name
    case Unknown => 9
    case InTable(p) => Strings.FindFrom(strtab, p, 58) - p
  }

  predicate NamesFile(stab: Stab) {
    stab.typ == N_SOL || (stab.typ == N_SO && stab.value != 0)
  }

  /** The nearest entry in [lfile, k], from k down, that names a source file; lfile - 1 if none. */
  function NearestFile(stabs: seq<Stab>, lfile: int, k: int): (n: int)
    requires 0 <= lfile && k < |stabs|
    ensures n <= k && (lfile - 1 <= k ==> lfile - 1 <= n)
    ensures lfile <= n ==> NamesFile(stabs[n])
    ensures forall j :: lfile <= j <= k && n < j ==> !NamesFile(stabs[j])
    decreases k
  {
    if k < lfile || NamesFile(stabs[k]) then k else NearestFile(stabs, lfile, k - 1)
  }

  /** The length of the run of parameter entries that starts at `from`, cut at `until`. */
  function ParamRun(stabs: seq<Stab>, from: int, until: int): (n: nat)
    requires 0 <= from && until <= |stabs|
    ensures n > 0 ==> from + n <= until
    ensures forall j :: from <= j < from + n ==> stabs[j].typ == N_PSYM
    ensures from + n < until ==> stabs[from + n].typ != N_PSYM
    decreases until - from
  {
    if from < until && stabs[from].typ == N_PSYM then 1 + ParamRun(stabs, from + 1, until) else 0
  }

  function Blank(addr: uint32): EipInfo {
    EipInfo(Unknown, 0, Unknown, 9, addr, 0)
  }

  /** What is stored once the file region [lfile, rfile] and the function region are known. */
  function Describe(stabs: seq<Stab>, strtab: seq<uint8>, addr: uint32, lfile: int, lfun: int, rfun: int): EipInfo
    requires GoodStrings(strtab) && 0 < lfile < |stabs|
    requires lfile - 1 <= lfun && rfun < |stabs|
  {
    var found := lfun <= rfun;
    var fnName := if found then NameOf(strtab, stabs[lfun].strx) else Unknown;
    var file := NearestFile(stabs, lfile, if found then lfun else lfile);
    EipInfo(
      if lfile <= file then NameOf(strtab, stabs[file].strx) else Unknown,
      0,
      fnName,
      NameLen(strtab, fnName),
      if found then stabs[lfun].value else addr,
      if lfun < rfun then ParamRun(stabs, lfun + 1, rfun) else 0)
  }

  function Lookup(stabs: seq<Stab>, strtab: seq<uint8>, addr: uint32): (a: Answer)
  {
    if addr < ULIM then Answer(Panicked, Blank(addr))
    else if !GoodStrings(strtab) then Answer(Returned(-1), Blank(addr))
    else
      var (lfile, rfile) := Found(stabs, 0, |stabs| - 1, N_SO, addr);
      if lfile == 0 then Answer(Returned(-1), Blank(addr))
      else if lfile < 0 then Answer(OutOfTable, Blank(addr))
      else
        InvertedIffEmpty(stabs, 0, |stabs| - 1, N_SO, addr);
        var (lfun, rfun) := Found(stabs, lfile, rfile, N_FUN, addr);
        InvertedIffEmpty(stabs, lfile, rfile, N_FUN, addr);
        Answer(Returned(0), Describe(stabs, strtab, addr, lfile, lfun, rfun))
  }

  class Eipdebuginfo {
    var file: Name
    var line: int
    var fnName: Name
    var fnNameLen: nat
    var fnAddr: uint32
    var fnNarg: nat

    function Value(): EipInfo
      reads this
    {
      EipInfo(file, line, fnName, fnNameLen, fnAddr, fnNarg)
    }
  }

  method ScanForFile(stabs: seq<Stab>, lfile: int, from: int) returns (lline: int)
    requires 0 <= lfile && from < |stabs|
    ensures lline == NearestFile(stabs, lfile, from)
  {
    lline := from;
    while lline >= lfile && stabs[lline].typ != N_SOL && (stabs[lline].typ != N_SO || stabs[lline].value == 0)
      invariant lline <= from && NearestFile(stabs, lfile, from) == NearestFile(stabs, lfile, lline)
      decreases lline
    {
      lline := lline - 1;
    }
  }

  method CountParams(stabs: seq<Stab>, lfun: int, rfun: int, info: Eipdebuginfo)
    requires 0 <= lfun < rfun < |stabs| && info.fnNarg == 0
    modifies info`fnNarg
    ensures info.fnNarg == ParamRun(stabs, lfun + 1, rfun)
  {
    var lline := lfun + 1;
    while lline < rfun && stabs[lline].typ == N_PSYM
      invariant lfun < lline <= rfun
      invariant info.fnNarg + ParamRun(stabs, lline, rfun) == ParamRun(stabs, lfun + 1, rfun)
    {
      info.fnNarg := info.fnNarg + 1;
      lline := lline + 1;
    }
  }

  /** The part that runs once both searches are done. */
  method FillIn(stabs: seq<Stab>, strtab: seq<uint8>, addr: uint32, lfile: int, lfun: int, rfun: int,
                info: Eipdebuginfo)
    requires GoodStrings(strtab) && 0 < lfile < |stabs|
    requires lfile - 1 <= lfun && rfun < |stabs|
    requires info.Value() == Blank(addr)
    modifies info
    ensures info.Value() == Describe(stabs, strtab, addr, lfile, lfun, rfun)
  {
    var lline;
    if lfun <= rfun {
      if stabs[lfun].strx < |strtab| {
        info.fnName := InTable(stabs[lfun].strx);
      }
      info.fnAddr := stabs[lfun].value;
      lline := lfun;
    } else {
      info.fnAddr := addr;
      lline := lfile;
    }
    match info.fnName {
      case InTable(p) =>
        var colon := Strings.Strfind(strtab, p, 58);
        info.fnNameLen := colon - p;
      case Unknown =>
        info.fnNameLen := 9;
    }
    lline := ScanForFile(stabs, lfile, lline);
    if lline >= lfile && stabs[lline].strx < |strtab| {
      info.file := InTable(stabs[lline].strx);
    }
    if lfun < rfun {
      CountParams(stabs, lfun, rfun, info);
    }
  }

  method DebuginfoEip(stabs: seq<Stab>, strtab: seq<uint8>, addr: uint32, info: Eipdebuginfo) returns (outcome: Outcome)
    requires Fits(stabs)
    modifies info
    ensures Answer(outcome, info.Value()) == Lookup(stabs, strtab, addr)
  {
    info.file := Unknown;
    info.line := 0;
    info.fnName := Unknown;
    info.fnNameLen := 9;
    info.fnAddr := addr;
    info.fnNarg := 0;

    if !(addr >= ULIM) {
      return Panicked;
    }
    if |strtab| <= 0 || strtab[|strtab| - 1] != 0 {
      return Returned(-1);
    }
    var lfile, rfile, _ := StabBinsearch(stabs, 0, |stabs| - 1, N_SO, addr);
    if lfile == 0 {
      return Returned(-1);
    }
    if lfile < 0 {
      return OutOfTable;
    }
    InvertedIffEmpty(stabs, 0, |stabs| - 1, N_SO, addr);
    var lfun, rfun, _ := StabBinsearch(stabs, lfile, rfile, N_FUN, addr);
    InvertedIffEmpty(stabs, lfile, rfile, N_FUN, addr);
    FillIn(stabs, strtab, addr, lfile, lfun, rfun, info);
    return Returned(0);
  }

  // ----- What the answer means -----

  ghost predicate FilesOrdered(stabs: seq<Stab>, addr: uint32, lfile: int, rfile: int) {
    && Sorted(stabs, 0, |stabs| - 1, N_SO) && BumpSafe(stabs, 0, |stabs| - 1, N_SO, addr)
    && Brackets(stabs, 0, |stabs| - 1, N_SO, addr, lfile, rfile)
  }

  /** The table orders its files by address, and the functions of the file that holds `addr`. */
  ghost predicate Ordered(stabs: seq<Stab>, addr: uint32, lfile: int, rfile: int) {
    && FilesOrdered(stabs, addr, lfile, rfile)
    && Sorted(stabs, lfile, rfile, N_FUN) && BumpSafe(stabs, lfile, rfile, N_FUN, addr)
  }

  lemma FindsFile(stabs: seq<Stab>, addr: uint32, lfile: int, rfile: int)
    requires FilesOrdered(stabs, addr, lfile, rfile)
    ensures Found(stabs, 0, |stabs| - 1, N_SO, addr) == (lfile, rfile)
  {
    FoundIsTheBracket(stabs, 0, |stabs| - 1, N_SO, addr, lfile, rfile);
  }

  /** A name of this length is followed by its first colon, or by its NUL. */
  ghost predicate NameEnds(strtab: seq<uint8>, name: Name, len: nat) {
    match name
    case Unknown => len == 9
    case InTable(p) =>
      && p + len < |strtab| && (strtab[p + len] == 58 || strtab[p + len] == 0)
      && forall k :: p <= k < p + len ==> strtab[k] != 58 && strtab[k] != 0
  }

  /** The `n` entries behind entry `at` are parameters, all of them before `end`, and the next
      one before `end` is not. */
  ghost predicate Parameters(stabs: seq<Stab>, at: int, n: nat, end: int)
    requires 0 <= at && end <= |stabs|
  {
    if at < end then
      && at + n < end
      && (forall k :: at < k <= at + n ==> stabs[k].typ == 0xA0)
      && (at + n + 1 < end ==> stabs[at + n + 1].typ != 0xA0)
    else n == 0
  }

  /** With a function at or below `addr` in the file of `addr`, the lookup names that
      function, the nearest source file before it, and its parameters. */
  lemma LookupFindsFunction(stabs: seq<Stab>, strtab: seq<uint8>, addr: uint32, lfile: int, rfile: int)
    returns (lfun: int, rfun: int, file: int)
    requires addr >= ULIM && GoodStrings(strtab)
    requires Ordered(stabs, addr, lfile, rfile) && lfile > 0
    requires SomeAtOrBelow(stabs, lfile, rfile, N_FUN, addr)
    ensures lfile < lfun <= rfun <= rfile && lfile - 1 <= file <= lfun
    ensures Brackets(stabs, lfile, rfile, N_FUN, addr, lfun, rfun)
    ensures lfile <= file ==>
              stabs[file].typ == 0x84 || (stabs[file].typ == 0x64 && stabs[file].value != 0)
    ensures forall k :: file < k <= lfun && lfile <= k ==>
              stabs[k].typ != 0x84 && (stabs[k].typ != 0x64 || stabs[k].value == 0)
    ensures stabs[lfile].typ == 0x64 && stabs[lfun].typ == 0x24
    ensures var a := Lookup(stabs, strtab, addr);
            && a.outcome == Returned(0)
            && a.info.fnAddr == stabs[lfun].value <= addr
            && a.info.fnName == (if stabs[lfun].strx < |strtab| then InTable(stabs[lfun].strx) else Unknown)
            && a.info.file == (if lfile <= file && stabs[file].strx < |strtab|
                               then InTable(stabs[file].strx) else Unknown)
            && NameEnds(strtab, a.info.fnName, a.info.fnNameLen)
            && Parameters(stabs, lfun, a.info.fnNarg, rfun)
            && a.info.line == 0
  {
    FindsFile(stabs, addr, lfile, rfile);
    SearchIsCorrect(stabs, lfile, rfile, N_FUN, addr);
    var f := Found(stabs, lfile, rfile, N_FUN, addr);
    lfun, rfun := f.0, f.1;
    file := NearestFile(stabs, lfile, lfun);
    LookupDescribes(stabs, strtab, addr, lfile, rfile, lfun, rfun);
    DescribeMeans(stabs, strtab, addr, lfile, lfun, rfun);
  }

  lemma LookupDescribes(stabs: seq<Stab>, strtab: seq<uint8>, addr: uint32, lfile: int, rfile: int, lfun: int,
                        rfun: int)
    requires addr >= ULIM && GoodStrings(strtab) && 0 < lfile <= rfile < |stabs| && lfile - 1 <= lfun && rfun < |stabs|
    requires Found(stabs, 0, |stabs| - 1, N_SO, addr) == (lfile, rfile)
    requires Found(stabs, lfile, rfile, N_FUN, addr) == (lfun, rfun)
    ensures Lookup(stabs, strtab, addr) == Answer(Returned(0), Describe(stabs, strtab, addr, lfile, lfun, rfun))
  {
  }

  /** The stored information, given the entries of file and function. */
  lemma DescribeMeans(stabs: seq<Stab>, strtab: seq<uint8>, addr: uint32, lfile: int, lfun: int, rfun: int)
    requires GoodStrings(strtab) && 0 < lfile < lfun <= rfun < |stabs|
    ensures var info, file := Describe(stabs, strtab, addr, lfile, lfun, rfun), NearestFile(stabs, lfile, lfun);
            && info.fnAddr == stabs[lfun].value
            && info.fnName == (if stabs[lfun].strx < |strtab| then InTable(stabs[lfun].strx) else Unknown)
            && info.file == (if lfile <= file && stabs[file].strx < |strtab|
                             then InTable(stabs[file].strx) else Unknown)
            && NameEnds(strtab, info.fnName, info.fnNameLen)
            && Parameters(stabs, lfun, info.fnNarg, rfun)
            && info.line == 0
  {
  }

  /** Every function of the file above `addr`: the entry of the file itself is taken for the function. */
  lemma LookupTakesFileForFunction(stabs: seq<Stab>, strtab: seq<uint8>, addr: uint32, lfile: int, rfile: int,
                                   first: int)
    requires addr >= ULIM && GoodStrings(strtab)
    requires Ordered(stabs, addr, lfile, rfile) && lfile > 0
    requires IsFirst(stabs, lfile, rfile, N_FUN, first) && stabs[first].value > addr
    ensures var a := Lookup(stabs, strtab, addr);
            && a.outcome == Returned(0)
            && a.info.fnAddr == stabs[lfile].value
            && a.info.fnName == (if stabs[lfile].strx < |strtab| then InTable(stabs[lfile].strx) else Unknown)
            && Parameters(stabs, lfile, a.info.fnNarg, first - 1)
  {
    FindsFile(stabs, addr, lfile, rfile);
    SearchAllAbove(stabs, lfile, rfile, N_FUN, addr, first);
  }

  /** No function in the file at all: only the file is known. */
  lemma LookupWithoutFunctions(stabs: seq<Stab>, strtab: seq<uint8>, addr: uint32, lfile: int, rfile: int)
    requires addr >= ULIM && GoodStrings(strtab)
    requires Ordered(stabs, addr, lfile, rfile) && lfile > 0
    requires Empty(stabs, lfile, rfile, N_FUN)
    ensures var named := stabs[lfile].value != 0 && stabs[lfile].strx < |strtab|;
            var file := if named then InTable(stabs[lfile].strx) else Unknown;
            Lookup(stabs, strtab, addr) == Answer(Returned(0), EipInfo(file, 0, Unknown, 9, addr, 0))
  {
    FindsFile(stabs, addr, lfile, rfile);
    InvertedIffEmpty(stabs, lfile, rfile, N_FUN, addr);
  }

  /** The outcomes: addresses below the kernel panic, a string table that does not end in a NUL
      and a table without a file for the address give -1, and nothing is stored then but what
      stands for "unknown". */
  lemma OutcomesAre(stabs: seq<Stab>, strtab: seq<uint8>, addr: uint32)
    ensures var a := Lookup(stabs, strtab, addr);
            && (a.outcome == Panicked <==> addr < 0xEF80_0000)
            && (a.outcome in {Panicked, Returned(0), Returned(-1), OutOfTable})
            && (addr >= 0xEF80_0000 && (strtab == [] || strtab[|strtab| - 1] != 0) ==> a.outcome == Returned(-1))
            && (a.outcome != Returned(0) ==> a.info == EipInfo(Unknown, 0, Unknown, 9, addr, 0))
  {
  }

  /** The lookup leaves the table only when its very first entry is a file above `addr`, or both
      sit at the largest address and no other file comes up to the middle; on a sorted table
      exactly then. */
  lemma LeavesTableIff(stabs: seq<Stab>, strtab: seq<uint8>, addr: uint32)
    requires addr >= ULIM && GoodStrings(strtab)
    ensures var leaves := Lookup(stabs, strtab, addr).outcome == OutOfTable;
            && (leaves ==> EndsBefore(stabs, 0, |stabs| - 1, N_SO, addr))
            && (Sorted(stabs, 0, |stabs| - 1, N_SO) ==>
                  (leaves <==> EndsBefore(stabs, 0, |stabs| - 1, N_SO, addr)))
  {
    LeftOfRangeIff(stabs, 0, |stabs| - 1, N_SO, addr);
  }

  /** The second case: a file at the largest address, looked up there. */
  lemma TopAddressLeavesTable(strtab: seq<uint8>)
    requires GoodStrings(strtab)
    ensures Lookup([Stab(0, N_SO, WORD_SIZE - 1)], strtab, WORD_SIZE - 1).outcome == OutOfTable
  {
    TopLeftOfRange([Stab(0, N_SO, WORD_SIZE - 1)], 0, 0, N_SO);
  }

  /** On a sorted table where the bump is harmless the lookup succeeds exactly when some file
      other than the very first entry starts at or below `addr`. */
  lemma SucceedsIff(stabs: seq<Stab>, strtab: seq<uint8>, addr: uint32)
    requires addr >= ULIM && GoodStrings(strtab)
    requires Sorted(stabs, 0, |stabs| - 1, N_SO) && BumpSafe(stabs, 0, |stabs| - 1, N_SO, addr)
    ensures Lookup(stabs, strtab, addr).outcome == Returned(0)
            <==> exists k :: 0 < k && IsEntry(stabs, 0, |stabs| - 1, N_SO, k) && stabs[k].value <= addr
  {
    var hi := |stabs| - 1;
    InvertedIffEmpty(stabs, 0, hi, N_SO, addr);
    if SomeAtOrBelow(stabs, 0, hi, N_SO, addr) {
      SearchIsCorrect(stabs, 0, hi, N_SO, addr);
    } else if !Empty(stabs, 0, hi, N_SO) {
      var k :| IsEntry(stabs, 0, hi, N_SO, k);
      var first := FirstEntry(stabs, 0, hi, N_SO, k);
      SearchAllAbove(stabs, 0, hi, N_SO, addr, first);
    }
  }

  /** A companion makes it succeed without such a file. */
  lemma SucceedsByCompanion(strtab: seq<uint8>, addr: uint32)
    requires addr >= ULIM && GoodStrings(strtab) && addr + 2 < WORD_SIZE
    ensures Lookup([Stab(0, N_SO, addr), Stab(0, N_SO, addr + 1)], strtab, addr).outcome == Returned(0)
  {
    CompanionMisleads([Stab(0, N_SO, addr), Stab(0, N_SO, addr + 1)], 0, 1, N_SO, addr);
  }

  lemma {:induction false} FirstEntry(stabs: seq<Stab>, lo: int, hi: int, typ: uint8, k: int) returns (first: int)
    requires IsEntry(stabs, lo, hi, typ, k)
    ensures IsFirst(stabs, lo, hi, typ, first)
    decreases k
  {
    if j :| j < k && IsEntry(stabs, lo, hi, typ, j) {
      first := FirstEntry(stabs, lo, hi, typ, j);
    } else {
      first := k;
    }
  }
}
