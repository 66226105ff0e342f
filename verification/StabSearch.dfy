/** Binary search over a symbol table in which only some entries have the wanted type. */
module StabSearch {
  import opened Machine

  datatype Stab = Stab(strx: uint32, typ: uint8, value: uint32)

  /** The table fits the 32-bit address space: an entry takes twelve bytes. */
  predicate Fits(stabs: seq<Stab>) {
    12 * |stabs| < WORD_SIZE
  }

  // ----- What the search is for -----

  predicate IsEntry(stabs: seq<Stab>, lo: int, hi: int, typ: uint8, k: int) {
    0 <= lo <= k <= hi < |stabs| && stabs[k].typ == typ
  }

  ghost predicate Sorted(stabs: seq<Stab>, lo: int, hi: int, typ: uint8) {
    forall i, j :: IsEntry(stabs, lo, hi, typ, i) && IsEntry(stabs, lo, hi, typ, j) && i <= j
                   ==> stabs[i].value <= stabs[j].value
  }

  /** `left` is the last entry of the type at or below `addr`; `right` lies just before
      the next entry of the type, or is the end of the range. */
  ghost predicate Brackets(stabs: seq<Stab>, lo: int, hi: int, typ: uint8, addr: uint32, left: int, right: int) {
    && IsEntry(stabs, lo, hi, typ, left)
    && stabs[left].value <= addr
    && left <= right <= hi
    && (forall k :: left < k <= right ==> !IsEntry(stabs, lo, hi, typ, k))
    && (right < hi ==> IsEntry(stabs, lo, hi, typ, right + 1))
    && (forall k :: right < k && IsEntry(stabs, lo, hi, typ, k) ==> stabs[k].value > addr)
  }

  ghost predicate AllAbove(stabs: seq<Stab>, lo: int, hi: int, typ: uint8, addr: uint32) {
    forall k :: IsEntry(stabs, lo, hi, typ, k) ==> stabs[k].value > addr
  }

  ghost predicate Empty(stabs: seq<Stab>, lo: int, hi: int, typ: uint8) {
    forall k :: !IsEntry(stabs, lo, hi, typ, k)
  }

  /** `k` is the first entry of the type in the range. */
  ghost predicate IsFirst(stabs: seq<Stab>, lo: int, hi: int, typ: uint8, k: int) {
    IsEntry(stabs, lo, hi, typ, k) && forall j :: j < k ==> !IsEntry(stabs, lo, hi, typ, j)
  }

  /** No entry valued `addr` has a companion valued `addr + 1`, and `addr + 1` does not wrap. */
  ghost predicate BumpSafe(stabs: seq<Stab>, lo: int, hi: int, typ: uint8, addr: uint32) {
    forall i :: IsEntry(stabs, lo, hi, typ, i) && stabs[i].value == addr ==>
      addr + 1 < WORD_SIZE &&
      forall j :: IsEntry(stabs, lo, hi, typ, j) ==> stabs[j].value != addr + 1
  }

  // ----- The search as a function -----

  function Bump(addr: uint32): uint32 {
    (addr + 1) % WORD_SIZE
  }

  /** The nearest entry of the type at or before `m`, or `l - 1`. */
  function ScanLeft(stabs: seq<Stab>, typ: uint8, l: int, m: int): (k: int)
    requires 0 <= l <= m + 1 <= |stabs|
    ensures l - 1 <= k <= m
    ensures k >= l ==> stabs[k].typ == typ
    ensures forall j :: k < j <= m ==> stabs[j].typ != typ
    decreases m
  {
    if m < l || stabs[m].typ == typ then m else ScanLeft(stabs, typ, l, m - 1)
  }

  function BackScan(stabs: seq<Stab>, typ: uint8, left: int, l: int): (k: int)
    requires -1 <= left && l < |stabs|
    ensures k <= l && (left <= l ==> left <= k) && (l <= left ==> k == l)
    ensures left < k ==> stabs[k].typ == typ
    ensures forall j :: k < j <= l ==> stabs[j].typ != typ
    decreases l - left
  {
    if l > left && stabs[l].typ != typ then BackScan(stabs, typ, left, l - 1) else l
  }

  /** The variables of the main loop; `hits` counts its exact matches. */
  datatype State = State(l: int, r: int, addr: uint32, left: int, right: int, any: bool, hits: nat)

  predicate Inside(stabs: seq<Stab>, s: State) {
    0 <= s.l && s.r < |stabs|
  }

  function Rank(stabs: seq<Stab>, typ: uint8, s: State): nat
    requires Inside(stabs, s)
  {
    if s.l <= s.r && stabs[s.l].typ == typ && stabs[s.l].value == s.addr then 1 else 0
  }

  function Step(stabs: seq<Stab>, typ: uint8, s: State): (t: State)
    requires Inside(stabs, s) && s.l <= s.r
    ensures Inside(stabs, t)
    ensures t.r - t.l < s.r - s.l || (t.r - t.l == s.r - s.l && Rank(stabs, typ, t) < Rank(stabs, typ, s))
  {
    var mid := (s.l + s.r) / 2;
    var m := ScanLeft(stabs, typ, s.l, mid);
    if m < s.l then State(mid + 1, s.r, s.addr, s.left, s.right, s.any, s.hits)
    else if stabs[m].value < s.addr then State(mid + 1, s.r, s.addr, m, s.right, true, s.hits)
    else if stabs[m].value > s.addr then State(s.l, m - 1, s.addr, s.left, m - 1, true, s.hits)
    else State(m, s.r, Bump(s.addr), m, s.right, true, s.hits + 1)
  }

  function Run(stabs: seq<Stab>, typ: uint8, s: State): (t: State)
    requires Inside(stabs, s)
    decreases s.r - s.l + 1, Rank(stabs, typ, s)
  {
    if s.l > s.r then s else Run(stabs, typ, Step(stabs, typ, s))
  }

  function Start(lo: int, hi: int, addr: uint32): State {
    State(lo, hi, addr, lo, hi, false, 0)
  }

  /** The pair the search stores through its two region pointers. */
  function Found(stabs: seq<Stab>, lo: int, hi: int, typ: uint8, addr: uint32): (f: (int, int))
    requires 0 <= lo && hi < |stabs|
  {
    var s := Run(stabs, typ, Start(lo, hi, addr));
    RunRanges(stabs, lo, hi, typ, Start(lo, hi, addr));
    if s.any then (BackScan(stabs, typ, s.left, s.right), s.right) else (s.left, s.left - 1)
  }

  // ----- Facts about every table, sorted or not -----

  ghost predicate Ranges(stabs: seq<Stab>, lo: int, hi: int, typ: uint8, s: State) {
    && 0 <= lo <= s.l && s.r == s.right <= hi < |stabs|
    && (lo <= hi ==> s.l - 1 <= s.r)
    && (s.left == lo || IsEntry(stabs, lo, hi, typ, s.left))
    && (!s.any ==> s.left == lo && s.right == hi && s.hits == 0)
    && (!s.any ==> forall k :: k < s.l ==> !IsEntry(stabs, lo, hi, typ, k))
    && (s.any ==> exists k :: IsEntry(stabs, lo, hi, typ, k))
  }

  lemma StepRanges(stabs: seq<Stab>, lo: int, hi: int, typ: uint8, s: State)
    requires Ranges(stabs, lo, hi, typ, s) && s.l <= s.r
    ensures Ranges(stabs, lo, hi, typ, Step(stabs, typ, s))
  {
    var m := ScanLeft(stabs, typ, s.l, (s.l + s.r) / 2);
    if m >= s.l {
      assert IsEntry(stabs, lo, hi, typ, m);
    }
  }

  lemma {:induction false} RunRanges(stabs: seq<Stab>, lo: int, hi: int, typ: uint8, s: State)
    requires Ranges(stabs, lo, hi, typ, s)
    ensures Ranges(stabs, lo, hi, typ, Run(stabs, typ, s))
    ensures Run(stabs, typ, s).l > Run(stabs, typ, s).r
    decreases s.r - s.l + 1, Rank(stabs, typ, s)
  {
    if s.l <= s.r {
      StepRanges(stabs, lo, hi, typ, s);
      RunRanges(stabs, lo, hi, typ, Step(stabs, typ, s));
    }
  }

  /** left > right comes back exactly when the range holds no entry of the type at all. */
  lemma InvertedIffEmpty(stabs: seq<Stab>, lo: int, hi: int, typ: uint8, addr: uint32)
    requires 0 <= lo && hi < |stabs|
    ensures var (left, right) := Found(stabs, lo, hi, typ, addr);
            && (left > right <==> Empty(stabs, lo, hi, typ))
            && (Empty(stabs, lo, hi, typ) ==> left == lo && right == lo - 1)
            && lo - 1 <= left && right <= (if hi < lo then lo - 1 else hi)
  {
    RunRanges(stabs, lo, hi, typ, Start(lo, hi, addr));
  }

  lemma StepLocal(stabs: seq<Stab>, other: seq<Stab>, lo: int, hi: int, typ: uint8, s: State)
    requires 0 <= lo <= s.l <= s.r <= hi < |stabs| && hi < |other|
    requires forall k :: lo <= k <= hi ==> stabs[k] == other[k]
    ensures Step(stabs, typ, s) == Step(other, typ, s)
  {
  }

  lemma {:induction false} RunLocal(stabs: seq<Stab>, other: seq<Stab>, lo: int, hi: int, typ: uint8, s: State)
    requires Ranges(stabs, lo, hi, typ, s) && hi < |other|
    requires forall k :: lo <= k <= hi ==> stabs[k] == other[k]
    ensures Run(stabs, typ, s) == Run(other, typ, s)
    decreases s.r - s.l + 1, Rank(stabs, typ, s)
  {
    if s.l <= s.r {
      StepLocal(stabs, other, lo, hi, typ, s);
      StepRanges(stabs, lo, hi, typ, s);
      RunLocal(stabs, other, lo, hi, typ, Step(stabs, typ, s));
    }
  }

  lemma BackScanLocal(stabs: seq<Stab>, other: seq<Stab>, typ: uint8, left: int, l: int)
    requires -1 <= left && l < |stabs| && l < |other|
    requires forall k :: left < k <= l ==> stabs[k] == other[k]
    ensures BackScan(stabs, typ, left, l) == BackScan(other, typ, left, l)
  {
  }

  lemma SearchIsLocal(stabs: seq<Stab>, other: seq<Stab>, lo: int, hi: int, typ: uint8, addr: uint32)
    requires 0 <= lo && hi < |stabs| && hi < |other|
    requires forall k :: lo <= k <= hi ==> stabs[k] == other[k]
    ensures Found(stabs, lo, hi, typ, addr) == Found(other, lo, hi, typ, addr)
  {
    var s := Start(lo, hi, addr);
    RunLocal(stabs, other, lo, hi, typ, s);
    RunRanges(stabs, lo, hi, typ, s);
    var t := Run(stabs, typ, s);
    BackScanLocal(stabs, other, typ, t.left, t.right);
  }

  // ----- Sorted tables -----

  /** What the loop knows of a sorted range: what lies left of `l` is below the current
      address, what lies right of `r` is above the address first asked for. */
  ghost predicate Narrowed(stabs: seq<Stab>, lo: int, hi: int, typ: uint8, addr: uint32, s: State) {
    && Ranges(stabs, lo, hi, typ, s)
    && s.addr == addr + s.hits
    && (forall k :: k < s.l && IsEntry(stabs, lo, hi, typ, k) ==> stabs[k].value < s.addr)
    && (forall k :: s.r < k && IsEntry(stabs, lo, hi, typ, k) ==> stabs[k].value > addr)
    && (s.r < hi ==> IsEntry(stabs, lo, hi, typ, s.r + 1))
    && s.left <= s.l
    && ((IsEntry(stabs, lo, hi, typ, s.left) && stabs[s.left].value < s.addr)
        || (s.left == lo && s.hits == 0 && forall k :: k < s.l ==> !IsEntry(stabs, lo, hi, typ, k)))
    && (forall k :: s.left < k < s.l ==> !IsEntry(stabs, lo, hi, typ, k))
    && (s.hits > 0 ==> s.left <= s.r && stabs[s.left].value >= addr + s.hits - 1)
  }

  /** Entry `m` splits the entries of the type by value as well as by position. */
  ghost predicate Splits(stabs: seq<Stab>, lo: int, hi: int, typ: uint8, m: int) {
    && IsEntry(stabs, lo, hi, typ, m)
    && (forall k :: IsEntry(stabs, lo, hi, typ, k) && k <= m ==> stabs[k].value <= stabs[m].value)
    && (forall k :: IsEntry(stabs, lo, hi, typ, k) && k >= m ==> stabs[k].value >= stabs[m].value)
  }

  lemma SortedSplits(stabs: seq<Stab>, lo: int, hi: int, typ: uint8, m: int)
    requires Sorted(stabs, lo, hi, typ) && IsEntry(stabs, lo, hi, typ, m)
    ensures Splits(stabs, lo, hi, typ, m)
  {
  }

  lemma StepNarrows(stabs: seq<Stab>, lo: int, hi: int, typ: uint8, addr: uint32, s: State)
    requires Sorted(stabs, lo, hi, typ)
    requires Narrowed(stabs, lo, hi, typ, addr, s) && s.l <= s.r
    requires Step(stabs, typ, s).addr == addr + Step(stabs, typ, s).hits
    ensures Narrowed(stabs, lo, hi, typ, addr, Step(stabs, typ, s))
  {
    var m := ScanLeft(stabs, typ, s.l, (s.l + s.r) / 2);
    if m < s.l {
      SkipNarrows(stabs, lo, hi, typ, addr, s);
    } else {
      assert IsEntry(stabs, lo, hi, typ, m);
      SortedSplits(stabs, lo, hi, typ, m);
      if stabs[m].value < s.addr {
        BelowNarrows(stabs, lo, hi, typ, addr, s, m);
      } else if stabs[m].value > s.addr {
        AboveNarrows(stabs, lo, hi, typ, addr, s, m);
      } else {
        HitNarrows(stabs, lo, hi, typ, addr, s, m);
      }
    }
  }

  lemma SkipNarrows(stabs: seq<Stab>, lo: int, hi: int, typ: uint8, addr: uint32, s: State)
    requires Narrowed(stabs, lo, hi, typ, addr, s) && s.l <= s.r
    requires ScanLeft(stabs, typ, s.l, (s.l + s.r) / 2) < s.l
    ensures Narrowed(stabs, lo, hi, typ, addr, Step(stabs, typ, s))
  {
  }

  lemma BelowNarrows(stabs: seq<Stab>, lo: int, hi: int, typ: uint8, addr: uint32, s: State, m: int)
    requires Narrowed(stabs, lo, hi, typ, addr, s) && s.l <= s.r
    requires m == ScanLeft(stabs, typ, s.l, (s.l + s.r) / 2) >= s.l
    requires Splits(stabs, lo, hi, typ, m)
    requires stabs[m].value < s.addr
    ensures Narrowed(stabs, lo, hi, typ, addr, Step(stabs, typ, s))
  {
  }

  lemma AboveNarrows(stabs: seq<Stab>, lo: int, hi: int, typ: uint8, addr: uint32, s: State, m: int)
    requires Narrowed(stabs, lo, hi, typ, addr, s) && s.l <= s.r
    requires m == ScanLeft(stabs, typ, s.l, (s.l + s.r) / 2) >= s.l
    requires Splits(stabs, lo, hi, typ, m)
    requires stabs[m].value > s.addr
    ensures Narrowed(stabs, lo, hi, typ, addr, Step(stabs, typ, s))
  {
    StepRanges(stabs, lo, hi, typ, s);
    CutNarrows(stabs, lo, hi, typ, addr, s, m, Step(stabs, typ, s));
  }

  lemma CutNarrows(stabs: seq<Stab>, lo: int, hi: int, typ: uint8, addr: uint32, s: State, m: int, t: State)
    requires Narrowed(stabs, lo, hi, typ, addr, s) && s.l <= m <= s.r
    requires Splits(stabs, lo, hi, typ, m)
    requires stabs[m].value > s.addr
    requires t == State(s.l, m - 1, s.addr, s.left, m - 1, true, s.hits) && Ranges(stabs, lo, hi, typ, t)
    ensures Narrowed(stabs, lo, hi, typ, addr, t)
  {
  }

  lemma HitNarrows(stabs: seq<Stab>, lo: int, hi: int, typ: uint8, addr: uint32, s: State, m: int)
    requires Narrowed(stabs, lo, hi, typ, addr, s) && s.l <= s.r
    requires m == ScanLeft(stabs, typ, s.l, (s.l + s.r) / 2) >= s.l
    requires Splits(stabs, lo, hi, typ, m)
    requires stabs[m].value == s.addr && s.addr + 1 < WORD_SIZE
    ensures Narrowed(stabs, lo, hi, typ, addr, Step(stabs, typ, s))
  {
    StepRanges(stabs, lo, hi, typ, s);
    BumpNarrows(stabs, lo, hi, typ, addr, s, m, Step(stabs, typ, s));
  }

  lemma BumpNarrows(stabs: seq<Stab>, lo: int, hi: int, typ: uint8, addr: uint32, s: State, m: int, t: State)
    requires Narrowed(stabs, lo, hi, typ, addr, s) && s.l <= m <= s.r
    requires Splits(stabs, lo, hi, typ, m)
    requires stabs[m].value == s.addr && s.addr + 1 < WORD_SIZE
    requires t == State(m, s.r, s.addr + 1, m, s.right, true, s.hits + 1) && Ranges(stabs, lo, hi, typ, t)
    ensures Narrowed(stabs, lo, hi, typ, addr, t)
  {
  }

  lemma {:induction false} RunKeepsHits(stabs: seq<Stab>, typ: uint8, s: State)
    requires Inside(stabs, s)
    ensures Run(stabs, typ, s).hits >= s.hits
    decreases s.r - s.l + 1, Rank(stabs, typ, s)
  {
    if s.l <= s.r {
      RunKeepsHits(stabs, typ, Step(stabs, typ, s));
    }
  }

  lemma StepNoWrap(stabs: seq<Stab>, typ: uint8, addr: uint32, s: State)
    requires Inside(stabs, s) && s.l <= s.r && s.addr == addr + s.hits
    requires addr + Run(stabs, typ, s).hits < WORD_SIZE
    ensures Step(stabs, typ, s).addr == addr + Step(stabs, typ, s).hits
    ensures Run(stabs, typ, s) == Run(stabs, typ, Step(stabs, typ, s))
  {
    var t := Step(stabs, typ, s);
    RunStep(stabs, typ, s);
    RunKeepsHits(stabs, typ, t);
    StepBumps(stabs, typ, s);
    BumpOnce(addr, s, t);
  }

  lemma BumpOnce(addr: uint32, s: State, t: State)
    requires s.addr == addr + s.hits && addr + t.hits < WORD_SIZE
    requires (t.addr == s.addr && t.hits == s.hits) || (t.addr == Bump(s.addr) && t.hits == s.hits + 1)
    ensures t.addr == addr + t.hits
  {
  }

  lemma StepBumps(stabs: seq<Stab>, typ: uint8, s: State)
    requires Inside(stabs, s) && s.l <= s.r
    ensures var t := Step(stabs, typ, s);
            (t.addr == s.addr && t.hits == s.hits) || (t.addr == Bump(s.addr) && t.hits == s.hits + 1)
  {
  }

  lemma {:induction false} RunNarrows(stabs: seq<Stab>, lo: int, hi: int, typ: uint8, addr: uint32, s: State)
    requires Sorted(stabs, lo, hi, typ)
    requires Narrowed(stabs, lo, hi, typ, addr, s)
    requires addr + Run(stabs, typ, s).hits < WORD_SIZE
    ensures Narrowed(stabs, lo, hi, typ, addr, Run(stabs, typ, s))
    decreases s.r - s.l + 1, Rank(stabs, typ, s)
  {
    if s.l <= s.r {
      StepNoWrap(stabs, typ, addr, s);
      StepNarrows(stabs, lo, hi, typ, addr, s);
      RunNarrows(stabs, lo, hi, typ, addr, Step(stabs, typ, s));
    }
  }

  lemma StepBumpsOnce(stabs: seq<Stab>, lo: int, hi: int, typ: uint8, addr: uint32, s: State)
    requires BumpSafe(stabs, lo, hi, typ, addr)
    requires Narrowed(stabs, lo, hi, typ, addr, s) && s.hits <= 1 && s.l <= s.r
    ensures var t := Step(stabs, typ, s); t.hits <= 1 && t.addr == addr + t.hits
  {
    var m := ScanLeft(stabs, typ, s.l, (s.l + s.r) / 2);
    if m >= s.l {
      assert IsEntry(stabs, lo, hi, typ, m);
      assert s.hits == 1 ==> stabs[s.left].value == addr;
    }
  }

  /** On a table without a companion at addr + 1 the bump happens at most once. */
  lemma {:induction false} RunBumpsOnce(stabs: seq<Stab>, lo: int, hi: int, typ: uint8, addr: uint32, s: State)
    requires Sorted(stabs, lo, hi, typ) && BumpSafe(stabs, lo, hi, typ, addr)
    requires Narrowed(stabs, lo, hi, typ, addr, s) && s.hits <= 1
    ensures Run(stabs, typ, s).hits <= 1 && addr + Run(stabs, typ, s).hits < WORD_SIZE
    decreases s.r - s.l + 1, Rank(stabs, typ, s)
  {
    if s.l <= s.r {
      StepBumpsOnce(stabs, lo, hi, typ, addr, s);
      StepNarrows(stabs, lo, hi, typ, addr, s);
      RunBumpsOnce(stabs, lo, hi, typ, addr, Step(stabs, typ, s));
    }
  }

  ghost predicate SomeAtOrBelow(stabs: seq<Stab>, lo: int, hi: int, typ: uint8, addr: uint32) {
    exists k :: IsEntry(stabs, lo, hi, typ, k) && stabs[k].value <= addr
  }

  /** On a sorted range the answer is right exactly when the bump happened at most once. */
  lemma BracketsIffOneHit(stabs: seq<Stab>, lo: int, hi: int, typ: uint8, addr: uint32)
    requires 0 <= lo && hi < |stabs| && Sorted(stabs, lo, hi, typ)
    requires SomeAtOrBelow(stabs, lo, hi, typ, addr)
    requires addr + Run(stabs, typ, Start(lo, hi, addr)).hits < WORD_SIZE
    ensures var (left, right) := Found(stabs, lo, hi, typ, addr);
            Brackets(stabs, lo, hi, typ, addr, left, right)
            <==> Run(stabs, typ, Start(lo, hi, addr)).hits <= 1
  {
    var s := Start(lo, hi, addr);
    RunRanges(stabs, lo, hi, typ, s);
    RunNarrows(stabs, lo, hi, typ, addr, s);
    NarrowedBrackets(stabs, lo, hi, typ, addr, Run(stabs, typ, s));
  }

  lemma NarrowedBrackets(stabs: seq<Stab>, lo: int, hi: int, typ: uint8, addr: uint32, t: State)
    requires Narrowed(stabs, lo, hi, typ, addr, t) && t.l > t.r
    requires SomeAtOrBelow(stabs, lo, hi, typ, addr)
    ensures t.any && BackScan(stabs, typ, t.left, t.right) == t.left
    ensures Brackets(stabs, lo, hi, typ, addr, t.left, t.right) <==> t.hits <= 1
  {
    var b := BackScan(stabs, typ, t.left, t.right);
    assert t.left < b ==> IsEntry(stabs, lo, hi, typ, b);
  }

  /** The search finds the entry containing `addr`. */
  lemma SearchIsCorrect(stabs: seq<Stab>, lo: int, hi: int, typ: uint8, addr: uint32)
    requires 0 <= lo && hi < |stabs| && Sorted(stabs, lo, hi, typ)
    requires BumpSafe(stabs, lo, hi, typ, addr)
    requires SomeAtOrBelow(stabs, lo, hi, typ, addr)
    ensures var (left, right) := Found(stabs, lo, hi, typ, addr);
            Brackets(stabs, lo, hi, typ, addr, left, right)
  {
    RunBumpsOnce(stabs, lo, hi, typ, addr, Start(lo, hi, addr));
    BracketsIffOneHit(stabs, lo, hi, typ, addr);
  }

  lemma BracketsUnique(stabs: seq<Stab>, lo: int, hi: int, typ: uint8, addr: uint32, l1: int, r1: int, l2: int, r2: int)
    requires Brackets(stabs, lo, hi, typ, addr, l1, r1) && Brackets(stabs, lo, hi, typ, addr, l2, r2)
    ensures l1 == l2 && r1 == r2
  {
  }

  /** There is one bracket, and the search finds it. */
  lemma FoundIsTheBracket(stabs: seq<Stab>, lo: int, hi: int, typ: uint8, addr: uint32, left: int, right: int)
    requires Sorted(stabs, lo, hi, typ) && BumpSafe(stabs, lo, hi, typ, addr)
    requires Brackets(stabs, lo, hi, typ, addr, left, right)
    ensures Found(stabs, lo, hi, typ, addr) == (left, right)
  {
    assert SomeAtOrBelow(stabs, lo, hi, typ, addr);
    SearchIsCorrect(stabs, lo, hi, typ, addr);
    var f := Found(stabs, lo, hi, typ, addr);
    BracketsUnique(stabs, lo, hi, typ, addr, left, right, f.0, f.1);
  }

  lemma NarrowedAllAbove(stabs: seq<Stab>, lo: int, hi: int, typ: uint8, addr: uint32, first: int, t: State)
    requires Narrowed(stabs, lo, hi, typ, addr, t) && t.l > t.r && t.hits <= 1
    requires IsFirst(stabs, lo, hi, typ, first) && AllAbove(stabs, lo, hi, typ, addr)
    ensures t.any && t.left == lo && t.right == first - 1
  {
  }

  lemma AllAboveFirst(stabs: seq<Stab>, lo: int, hi: int, typ: uint8, addr: uint32, first: int)
    requires Sorted(stabs, lo, hi, typ)
    requires IsFirst(stabs, lo, hi, typ, first) && stabs[first].value > addr
    ensures AllAbove(stabs, lo, hi, typ, addr) && BumpSafe(stabs, lo, hi, typ, addr)
  {
  }

  lemma FoundAllAbove(stabs: seq<Stab>, lo: int, hi: int, typ: uint8, addr: uint32, first: int)
    requires IsFirst(stabs, lo, hi, typ, first)
    requires var t := Run(stabs, typ, Start(lo, hi, addr)); t.any && t.left == lo && t.right == first - 1
    ensures Found(stabs, lo, hi, typ, addr) == if first == lo then (lo - 1, lo - 1) else (lo, first - 1)
  {
    var b := BackScan(stabs, typ, lo, first - 1);
    assert lo < b ==> IsEntry(stabs, lo, hi, typ, b);
  }

  /** Entries exist but all lie above `addr`: the region is not inverted, and this is what it is. */
  lemma SearchAllAbove(stabs: seq<Stab>, lo: int, hi: int, typ: uint8, addr: uint32, first: int)
    requires 0 <= lo && hi < |stabs| && Sorted(stabs, lo, hi, typ)
    requires IsFirst(stabs, lo, hi, typ, first) && stabs[first].value > addr
    ensures Found(stabs, lo, hi, typ, addr) == if first == lo then (lo - 1, lo - 1) else (lo, first - 1)
  {
    var s := Start(lo, hi, addr);
    AllAboveFirst(stabs, lo, hi, typ, addr, first);
    RunRanges(stabs, lo, hi, typ, s);
    RunBumpsOnce(stabs, lo, hi, typ, addr, s);
    RunNarrows(stabs, lo, hi, typ, addr, s);
    NarrowedAllAbove(stabs, lo, hi, typ, addr, first, Run(stabs, typ, s));
    FoundAllAbove(stabs, lo, hi, typ, addr, first);
  }

  /** The documented reading of an inverted region holds exactly outside the all-above case. */
  lemma InvertedMeansNotFoundIff(stabs: seq<Stab>, lo: int, hi: int, typ: uint8, addr: uint32)
    requires 0 <= lo && hi < |stabs|
    ensures var (left, right) := Found(stabs, lo, hi, typ, addr);
            (left > right <==> !SomeAtOrBelow(stabs, lo, hi, typ, addr))
            <==> (Empty(stabs, lo, hi, typ) || SomeAtOrBelow(stabs, lo, hi, typ, addr))
  {
    InvertedIffEmpty(stabs, lo, hi, typ, addr);
  }

  // ----- The companion at addr + 1 -----

  ghost predicate RightOn(stabs: seq<Stab>, lo: int, hi: int, typ: uint8, addr: uint32)
    requires 0 <= lo && hi < |stabs|
  {
    SomeAtOrBelow(stabs, lo, hi, typ, addr) ==>
      var (left, right) := Found(stabs, lo, hi, typ, addr);
      Brackets(stabs, lo, hi, typ, addr, left, right)
  }

  ghost predicate RightOnAll(stabs: seq<Stab>, lo: int, hi: int, typ: uint8, addr: uint32)
    requires 0 <= lo && hi < |stabs|
  {
    forall a, b :: lo <= a && b <= hi ==> RightOn(stabs, a, b, typ, addr)
  }

  /** A range whose only entry of the type sits at its end, holding the current address:
      the walk ends there. */
  lemma {:induction false} LoneEntryIsHit(stabs: seq<Stab>, typ: uint8, s: State)
    requires Inside(stabs, s) && s.l <= s.r && s.addr + 1 < WORD_SIZE
    requires stabs[s.r].typ == typ && stabs[s.r].value == s.addr
    requires forall k :: s.l <= k < s.r ==> stabs[k].typ != typ
    ensures Run(stabs, typ, s).left == s.r && Run(stabs, typ, s).right == s.right
    ensures Run(stabs, typ, s).any
    decreases s.r - s.l
  {
    var mid := (s.l + s.r) / 2;
    var t := Step(stabs, typ, s);
    if mid < s.r {
      LoneEntryIsHit(stabs, typ, t);
    } else {
      assert ScanLeft(stabs, typ, s.r, mid) == s.r;
      assert t == s.(left := s.r, addr := s.addr + 1, any := true, hits := s.hits + 1);
      var u := Step(stabs, typ, t);
      assert u == t.(l := s.r + 1);
      assert Run(stabs, typ, s) == Run(stabs, typ, t) == Run(stabs, typ, u) == u;
    }
  }

  /** Adjacent entries of the type valued addr and addr + 1 at the ends of a range mislead the search. */
  lemma CompanionMisleads(stabs: seq<Stab>, lo: int, hi: int, typ: uint8, addr: uint32)
    requires 0 <= lo < hi < |stabs| && addr + 2 < WORD_SIZE
    requires stabs[lo].typ == typ && stabs[lo].value == addr
    requires stabs[hi].typ == typ && stabs[hi].value == addr + 1
    requires forall k :: lo < k < hi ==> stabs[k].typ != typ
    ensures Found(stabs, lo, hi, typ, addr) == (hi, hi)
    ensures !RightOn(stabs, lo, hi, typ, addr)
  {
    var s := Start(lo, hi, addr);
    var t := Step(stabs, typ, s);
    assert ScanLeft(stabs, typ, lo, (lo + hi) / 2) == lo;
    assert t == s.(left := lo, addr := addr + 1, any := true, hits := 1);
    var u := Step(stabs, typ, t);
    assert u == t.(l := (lo + hi) / 2 + 1);
    assert Run(stabs, typ, s) == Run(stabs, typ, t) == Run(stabs, typ, u);
    LoneEntryIsHit(stabs, typ, u);
    assert IsEntry(stabs, lo, hi, typ, lo);
    assert SomeAtOrBelow(stabs, lo, hi, typ, addr);
    assert IsEntry(stabs, lo, hi, typ, hi);
  }

  /** Between an entry valued addr and one valued addr + 1 in a sorted range lie two
      neighbouring entries with these values. */
  lemma {:induction false} NeighbouringPair(stabs: seq<Stab>, lo: int, hi: int, typ: uint8, i: int, j: int)
    returns (p: int, q: int)
    requires Sorted(stabs, lo, hi, typ)
    requires IsEntry(stabs, lo, hi, typ, i) && IsEntry(stabs, lo, hi, typ, j)
    requires i < j && stabs[j].value == stabs[i].value + 1
    ensures i <= p < q <= j && IsEntry(stabs, lo, hi, typ, p) && IsEntry(stabs, lo, hi, typ, q)
    ensures stabs[p].value == stabs[i].value && stabs[q].value == stabs[j].value
    ensures forall k :: p < k < q ==> stabs[k].typ != typ
    decreases j - i
  {
    if k :| i < k < j && stabs[k].typ == typ {
      assert IsEntry(stabs, lo, hi, typ, k);
      if stabs[k].value == stabs[i].value {
        p, q := NeighbouringPair(stabs, lo, hi, typ, k, j);
      } else {
        p, q := NeighbouringPair(stabs, lo, hi, typ, i, k);
      }
    } else {
      p, q := i, j;
    }
  }

  /** No companion is enough on every range, and needed for being right on all of them.
      The one address left out is 2^32 - 2, for which see NextToTopIff. */
  lemma RightOnEveryRangeIffBumpSafe(stabs: seq<Stab>, lo: int, hi: int, typ: uint8, addr: uint32)
    requires 0 <= lo && hi < |stabs| && Sorted(stabs, lo, hi, typ) && addr != NEXT_TO_TOP
    ensures BumpSafe(stabs, lo, hi, typ, addr)
            <==> RightOnAll(stabs, lo, hi, typ, addr)
  {
    if BumpSafe(stabs, lo, hi, typ, addr) {
      forall a, b | lo <= a && b <= hi ensures RightOn(stabs, a, b, typ, addr) {
        assert forall k :: IsEntry(stabs, a, b, typ, k) ==> IsEntry(stabs, lo, hi, typ, k);
        if SomeAtOrBelow(stabs, a, b, typ, addr) {
          SearchIsCorrect(stabs, a, b, typ, addr);
        }
      }
    } else if addr == WORD_SIZE - 1 {
      RightAtTopIff(stabs, lo, hi, typ);
    } else {
      var i, j :| IsEntry(stabs, lo, hi, typ, i) && IsEntry(stabs, lo, hi, typ, j)
                  && stabs[i].value == addr && stabs[j].value == addr + 1;
      var p, q := NeighbouringPair(stabs, lo, hi, typ, i, j);
      CompanionMisleads(stabs, p, q, typ, addr);
    }
  }

  /** At the largest address the bump wraps to zero, and the answer is right exactly when
      no entry sits there. */
  lemma RightAtTopIff(stabs: seq<Stab>, lo: int, hi: int, typ: uint8)
    requires 0 <= lo && hi < |stabs| && Sorted(stabs, lo, hi, typ)
    requires !Empty(stabs, lo, hi, typ)
    ensures RightOn(stabs, lo, hi, typ, WORD_SIZE - 1)
            <==> forall k :: IsEntry(stabs, lo, hi, typ, k) ==> stabs[k].value != WORD_SIZE - 1
  {
    if k :| IsEntry(stabs, lo, hi, typ, k) && stabs[k].value == WORD_SIZE - 1 {
      var s := Start(lo, hi, WORD_SIZE - 1);
      RunRanges(stabs, lo, hi, typ, s);
      var m := TopWraps(stabs, lo, hi, typ, s, k);
    } else {
      assert SomeAtOrBelow(stabs, lo, hi, typ, WORD_SIZE - 1);
      SearchIsCorrect(stabs, lo, hi, typ, WORD_SIZE - 1);
    }
  }

  lemma RunStep(stabs: seq<Stab>, typ: uint8, s: State)
    requires Inside(stabs, s) && s.l <= s.r
    ensures Run(stabs, typ, s) == Run(stabs, typ, Step(stabs, typ, s))
  {
  }

  lemma {:induction false} TopWraps(stabs: seq<Stab>, lo: int, hi: int, typ: uint8, s: State, k: int)
    returns (m: int)
    requires Ranges(stabs, lo, hi, typ, s) && Sorted(stabs, lo, hi, typ)
    requires s.l <= k <= s.r && s.addr == WORD_SIZE - 1
    requires IsEntry(stabs, lo, hi, typ, k) && stabs[k].value == WORD_SIZE - 1
    ensures IsEntry(stabs, lo, hi, typ, m) && stabs[m].value == WORD_SIZE - 1
    ensures Run(stabs, typ, s).right == m - 1
    decreases s.r - s.l
  {
    var t := TopStep(stabs, lo, hi, typ, s, k);
    if t.addr == 0 {
      m := t.l;
      AfterWrap(stabs, lo, hi, typ, t);
    } else {
      m := TopWraps(stabs, lo, hi, typ, t, k);
    }
  }

  lemma TopStep(stabs: seq<Stab>, lo: int, hi: int, typ: uint8, s: State, k: int) returns (t: State)
    requires Ranges(stabs, lo, hi, typ, s) && Sorted(stabs, lo, hi, typ)
    requires s.l <= k <= s.r && s.addr == WORD_SIZE - 1
    requires IsEntry(stabs, lo, hi, typ, k) && stabs[k].value == WORD_SIZE - 1
    ensures Ranges(stabs, lo, hi, typ, t) && Run(stabs, typ, t) == Run(stabs, typ, s)
    ensures t.addr == 0 ==> t.l <= t.r && IsEntry(stabs, lo, hi, typ, t.l) && stabs[t.l].value == WORD_SIZE - 1
    ensures t.addr != 0 ==> t.addr == s.addr && t.l <= k <= t.r && t.r - t.l < s.r - s.l
  {
    t := Step(stabs, typ, s);
    RunStep(stabs, typ, s);
    StepRanges(stabs, lo, hi, typ, s);
  }

  /** Looking for address zero from an entry on, the walk closes up just before that entry. */
  lemma {:induction false} AfterWrap(stabs: seq<Stab>, lo: int, hi: int, typ: uint8, s: State)
    requires Ranges(stabs, lo, hi, typ, s) && Sorted(stabs, lo, hi, typ)
    requires s.addr == 0 && s.l <= s.r
    requires IsEntry(stabs, lo, hi, typ, s.l) && stabs[s.l].value > 0
    ensures var t := Run(stabs, typ, s);
            t.right + 1 == s.l && t.left == s.left && t.hits == s.hits && t.any
    decreases s.r - s.l
  {
    var m := ScanLeft(stabs, typ, s.l, (s.l + s.r) / 2);
    assert IsEntry(stabs, lo, hi, typ, m);
    var t := Step(stabs, typ, s);
    StepRanges(stabs, lo, hi, typ, s);
    assert t == s.(right := m - 1, r := m - 1, any := true);
    if m > s.l {
      AfterWrap(stabs, lo, hi, typ, t);
    }
  }

  /** A companion need not do harm to a single call: here the first midpoint cuts it off. */
  lemma CompanionCutOff(typ: uint8)
    ensures var stabs := [Stab(0, typ, 10), Stab(0, typ, 11), Stab(0, typ, 12)];
            && !BumpSafe(stabs, 0, 2, typ, 10)
            && Found(stabs, 0, 2, typ, 10) == (0, 0)
            && Brackets(stabs, 0, 2, typ, 10, 0, 0)
  {
    var stabs := [Stab(0, typ, 10), Stab(0, typ, 11), Stab(0, typ, 12)];
    assert IsEntry(stabs, 0, 2, typ, 0) && IsEntry(stabs, 0, 2, typ, 1);
    var s := Start(0, 2, 10);
    var t := Step(stabs, typ, s);
    assert t == State(0, 0, 10, 0, 0, true, 0);
    var u := Step(stabs, typ, t);
    assert u == State(0, 0, 11, 0, 0, true, 1);
    var v := Step(stabs, typ, u);
    assert v == State(1, 0, 11, 0, 0, true, 1);
    RunStep(stabs, typ, s);
    RunStep(stabs, typ, t);
    RunStep(stabs, typ, u);
  }

  // ----- The address before the largest -----

  const NEXT_TO_TOP: uint32 := WORD_SIZE - 2

  /** The second exact match at the address before the largest wraps to zero: from there
      the walk closes up just before the entry `m` that matched. */
  lemma {:induction false} SecondHit(stabs: seq<Stab>, lo: int, hi: int, typ: uint8, s: State) returns (m: int)
    requires Sorted(stabs, lo, hi, typ)
    requires Narrowed(stabs, lo, hi, typ, NEXT_TO_TOP, s) && s.hits <= 1
    requires Run(stabs, typ, s).hits > 1
    ensures IsEntry(stabs, lo, hi, typ, m) && stabs[m].value == WORD_SIZE - 1
    ensures Run(stabs, typ, s).any && Run(stabs, typ, s).left == m && Run(stabs, typ, s).right == m - 1
    decreases s.r - s.l + 1, Rank(stabs, typ, s)
  {
    if Step(stabs, typ, s).hits > 1 {
      m := SecondHitStep(stabs, lo, hi, typ, s);
    } else {
      var t := NotYetHit(stabs, lo, hi, typ, s);
      m := SecondHit(stabs, lo, hi, typ, t);
    }
  }

  lemma NotYetHit(stabs: seq<Stab>, lo: int, hi: int, typ: uint8, s: State) returns (t: State)
    requires Sorted(stabs, lo, hi, typ)
    requires Narrowed(stabs, lo, hi, typ, NEXT_TO_TOP, s) && s.l <= s.r
    requires Step(stabs, typ, s).hits <= 1
    ensures Narrowed(stabs, lo, hi, typ, NEXT_TO_TOP, t) && t.hits <= 1
    ensures Run(stabs, typ, t) == Run(stabs, typ, s)
    ensures t.r - t.l < s.r - s.l || (t.r - t.l == s.r - s.l && Rank(stabs, typ, t) < Rank(stabs, typ, s))
  {
    t := Step(stabs, typ, s);
    RunStep(stabs, typ, s);
    assert t.addr == NEXT_TO_TOP + t.hits by { StepBumps(stabs, typ, s); }
    StepNarrows(stabs, lo, hi, typ, NEXT_TO_TOP, s);
  }

  lemma SecondHitStep(stabs: seq<Stab>, lo: int, hi: int, typ: uint8, s: State) returns (m: int)
    requires Ranges(stabs, lo, hi, typ, s) && Sorted(stabs, lo, hi, typ)
    requires s.l <= s.r && s.hits <= 1 && s.addr == NEXT_TO_TOP + s.hits
    requires Step(stabs, typ, s).hits > 1
    ensures IsEntry(stabs, lo, hi, typ, m) && stabs[m].value == WORD_SIZE - 1
    ensures Run(stabs, typ, s).any && Run(stabs, typ, s).left == m && Run(stabs, typ, s).right == m - 1
  {
    m := ScanLeft(stabs, typ, s.l, (s.l + s.r) / 2);
    assert IsEntry(stabs, lo, hi, typ, m);
    var t := State(m, s.r, 0, m, s.right, true, s.hits + 1);
    assert t == Step(stabs, typ, s);
    StepRanges(stabs, lo, hi, typ, s);
    RunStep(stabs, typ, s);
    AfterWrap(stabs, lo, hi, typ, t);
  }

  /** For the address 2^32 - 2: right exactly when the bump happened at most once, or when the
      entry just before the second match `m` happens to be of the type and not at the top. */
  lemma NextToTopIff(stabs: seq<Stab>, lo: int, hi: int, typ: uint8) returns (m: int)
    requires 0 <= lo && hi < |stabs| && Sorted(stabs, lo, hi, typ)
    requires SomeAtOrBelow(stabs, lo, hi, typ, NEXT_TO_TOP)
    ensures var once := Run(stabs, typ, Start(lo, hi, NEXT_TO_TOP)).hits <= 1;
            var (left, right) := Found(stabs, lo, hi, typ, NEXT_TO_TOP);
            && (!once ==> IsEntry(stabs, lo, hi, typ, m) && stabs[m].value == WORD_SIZE - 1
                          && left == right == m - 1)
            && (Brackets(stabs, lo, hi, typ, NEXT_TO_TOP, left, right)
                <==> once || (IsEntry(stabs, lo, hi, typ, m - 1) && stabs[m - 1].value != WORD_SIZE - 1))
  {
    var s := Start(lo, hi, NEXT_TO_TOP);
    m := lo;
    if Run(stabs, typ, s).hits <= 1 {
      BracketsIffOneHit(stabs, lo, hi, typ, NEXT_TO_TOP);
    } else {
      RunRanges(stabs, lo, hi, typ, s);
      m := SecondHit(stabs, lo, hi, typ, s);
      BracketsBefore(stabs, lo, hi, typ, m);
    }
  }

  lemma BracketsBefore(stabs: seq<Stab>, lo: int, hi: int, typ: uint8, m: int)
    requires Sorted(stabs, lo, hi, typ)
    requires IsEntry(stabs, lo, hi, typ, m) && stabs[m].value == WORD_SIZE - 1
    ensures Brackets(stabs, lo, hi, typ, NEXT_TO_TOP, m - 1, m - 1)
            <==> IsEntry(stabs, lo, hi, typ, m - 1) && stabs[m - 1].value != WORD_SIZE - 1
  {
  }

  function TopPair(typ: uint8): seq<Stab> {
    [Stab(0, typ, NEXT_TO_TOP), Stab(0, typ, WORD_SIZE - 1)]
  }

  /** There the absence of a companion is not needed: on this table every range comes out right. */
  lemma NextToTopWithCompanion(typ: uint8)
    ensures Sorted(TopPair(typ), 0, 1, typ) && !BumpSafe(TopPair(typ), 0, 1, typ, NEXT_TO_TOP)
    ensures RightOnAll(TopPair(typ), 0, 1, typ, NEXT_TO_TOP)
  {
    assert IsEntry(TopPair(typ), 0, 1, typ, 0) && IsEntry(TopPair(typ), 0, 1, typ, 1);
    forall a, b | 0 <= a && b <= 1 ensures RightOn(TopPair(typ), a, b, typ, NEXT_TO_TOP) {
      if SomeAtOrBelow(TopPair(typ), a, b, typ, NEXT_TO_TOP) {
        var m := NextToTopIff(TopPair(typ), a, b, typ);
        assert IsEntry(TopPair(typ), a, b, typ, 0);
      }
    }
  }

  /** Two neighbouring entries valued 2^32 - 2 and 2^32 - 1 lie next to each other. */
  ghost predicate Adjoining(stabs: seq<Stab>, lo: int, hi: int, typ: uint8) {
    forall p, q :: IsEntry(stabs, lo, hi, typ, p) && IsEntry(stabs, lo, hi, typ, q) && p < q
                   && stabs[p].value == NEXT_TO_TOP && stabs[q].value == WORD_SIZE - 1
                   && (forall k :: p < k < q ==> stabs[k].typ != typ)
                   ==> q == p + 1
  }

  /** At most one entry of the type sits at the largest address. */
  ghost predicate OneAtTop(stabs: seq<Stab>, lo: int, hi: int, typ: uint8) {
    forall i, j :: IsEntry(stabs, lo, hi, typ, i) && stabs[i].value == WORD_SIZE - 1
                   && IsEntry(stabs, lo, hi, typ, j) && stabs[j].value == WORD_SIZE - 1
                   ==> i == j
  }

  /** A range whose only entry of the type sits at its end, holding the current address, is hit. */
  lemma {:induction false} LoneEntryHit(stabs: seq<Stab>, typ: uint8, s: State)
    requires Inside(stabs, s) && s.l <= s.r
    requires stabs[s.r].typ == typ && stabs[s.r].value == s.addr
    requires forall k :: s.l <= k < s.r ==> stabs[k].typ != typ
    ensures Run(stabs, typ, s).hits > s.hits
    decreases s.r - s.l
  {
    var mid := (s.l + s.r) / 2;
    var t := Step(stabs, typ, s);
    RunStep(stabs, typ, s);
    if mid < s.r {
      LoneEntryHit(stabs, typ, t);
    } else {
      assert ScanLeft(stabs, typ, s.r, mid) == s.r;
      RunKeepsHits(stabs, typ, t);
    }
  }

  /** Neighbours valued addr and addr + 1 at the ends of a range are both matched. */
  lemma BothMatched(stabs: seq<Stab>, lo: int, hi: int, typ: uint8, addr: uint32)
    requires 0 <= lo < hi < |stabs| && addr + 1 < WORD_SIZE
    requires stabs[lo].typ == typ && stabs[lo].value == addr
    requires stabs[hi].typ == typ && stabs[hi].value == addr + 1
    requires forall k :: lo < k < hi ==> stabs[k].typ != typ
    ensures Run(stabs, typ, Start(lo, hi, addr)).hits > 1
  {
    var s := Start(lo, hi, addr);
    var t := Step(stabs, typ, s);
    assert ScanLeft(stabs, typ, lo, (lo + hi) / 2) == lo;
    assert t == s.(left := lo, addr := addr + 1, any := true, hits := 1);
    var u := Step(stabs, typ, t);
    assert u == t.(l := (lo + hi) / 2 + 1);
    RunStep(stabs, typ, s);
    RunStep(stabs, typ, t);
    LoneEntryHit(stabs, typ, u);
  }

  /** Being right on all sub-ranges at 2^32 - 2, by the table alone: such neighbours must lie next
      to each other, and with at most one entry at the largest address that is all it takes. */
  lemma NextToTopOnAll(stabs: seq<Stab>, lo: int, hi: int, typ: uint8)
    requires 0 <= lo && hi < |stabs| && Sorted(stabs, lo, hi, typ)
    ensures RightOnAll(stabs, lo, hi, typ, NEXT_TO_TOP) ==> Adjoining(stabs, lo, hi, typ)
    ensures OneAtTop(stabs, lo, hi, typ) ==>
              (RightOnAll(stabs, lo, hi, typ, NEXT_TO_TOP) <==> Adjoining(stabs, lo, hi, typ))
  {
    if p, q :| IsEntry(stabs, lo, hi, typ, p) && IsEntry(stabs, lo, hi, typ, q) && p < q
               && stabs[p].value == NEXT_TO_TOP && stabs[q].value == WORD_SIZE - 1
               && (forall k :: p < k < q ==> stabs[k].typ != typ) && q != p + 1 {
      GapMisleads(stabs, p, q, typ);
    } else if OneAtTop(stabs, lo, hi, typ) {
      forall a, b | lo <= a && b <= hi ensures RightOn(stabs, a, b, typ, NEXT_TO_TOP) {
        if SomeAtOrBelow(stabs, a, b, typ, NEXT_TO_TOP) {
          AdjoiningRight(stabs, lo, hi, typ, a, b);
        }
      }
    }
  }

  lemma GapMisleads(stabs: seq<Stab>, p: int, q: int, typ: uint8)
    requires 0 <= p && p + 1 < q < |stabs|
    requires stabs[p].typ == typ && stabs[p].value == NEXT_TO_TOP
    requires stabs[q].typ == typ && stabs[q].value == WORD_SIZE - 1
    requires forall k :: p < k < q ==> stabs[k].typ != typ
    ensures !RightOn(stabs, p, q, typ, NEXT_TO_TOP)
  {
    assert IsEntry(stabs, p, q, typ, p) && SomeAtOrBelow(stabs, p, q, typ, NEXT_TO_TOP);
    BothMatched(stabs, p, q, typ, NEXT_TO_TOP);
    var m := NextToTopIff(stabs, p, q, typ);
  }

  lemma AdjoiningRight(stabs: seq<Stab>, lo: int, hi: int, typ: uint8, a: int, b: int)
    requires 0 <= lo <= a && b <= hi < |stabs| && Sorted(stabs, lo, hi, typ)
    requires Adjoining(stabs, lo, hi, typ) && OneAtTop(stabs, lo, hi, typ)
    requires SomeAtOrBelow(stabs, a, b, typ, NEXT_TO_TOP)
    ensures RightOn(stabs, a, b, typ, NEXT_TO_TOP)
  {
    assert forall k :: IsEntry(stabs, a, b, typ, k) ==> IsEntry(stabs, lo, hi, typ, k);
    var m := NextToTopIff(stabs, a, b, typ);
    if Run(stabs, typ, Start(a, b, NEXT_TO_TOP)).hits > 1 {
      var p := FirstMatch(stabs, a, b, typ);
      var i, j := NeighbouringPair(stabs, a, b, typ, p, m);
      assert j == m == i + 1;
    }
  }

  /** Two matches at 2^32 - 2 mean that an entry sits there. */
  lemma FirstMatch(stabs: seq<Stab>, lo: int, hi: int, typ: uint8) returns (p: int)
    requires 0 <= lo && hi < |stabs| && Sorted(stabs, lo, hi, typ)
    requires SomeAtOrBelow(stabs, lo, hi, typ, NEXT_TO_TOP)
    requires Run(stabs, typ, Start(lo, hi, NEXT_TO_TOP)).hits > 1
    ensures IsEntry(stabs, lo, hi, typ, p) && stabs[p].value == NEXT_TO_TOP
  {
    if k :| IsEntry(stabs, lo, hi, typ, k) && stabs[k].value == NEXT_TO_TOP {
      p := k;
    } else {
      RunBumpsOnce(stabs, lo, hi, typ, NEXT_TO_TOP, Start(lo, hi, NEXT_TO_TOP));
      assert false;
    }
  }

  /** With more entries at the largest address, lying next to each other is not enough. */
  lemma SeveralAtTop(typ: uint8)
    ensures Sorted(TopRun(typ), 0, 7, typ) && Adjoining(TopRun(typ), 0, 7, typ)
    ensures Found(TopRun(typ), 0, 7, typ, NEXT_TO_TOP) == (4, 4)
    ensures !RightOn(TopRun(typ), 0, 7, typ, NEXT_TO_TOP)
  {
    var stabs := TopRun(typ);
    var s := Start(0, 7, NEXT_TO_TOP);
    var t := Step(stabs, typ, s);
    assert t == State(3, 7, WORD_SIZE - 1, 3, 7, true, 1);
    var u := Step(stabs, typ, t);
    assert u == State(5, 7, 0, 5, 7, true, 2);
    RunStep(stabs, typ, s);
    RunStep(stabs, typ, t);
    assert IsEntry(stabs, 0, 7, typ, 3) && IsEntry(stabs, 0, 7, typ, 4) && IsEntry(stabs, 0, 7, typ, 5);
    StepRanges(stabs, 0, 7, typ, s);
    StepRanges(stabs, 0, 7, typ, t);
    AfterWrap(stabs, 0, 7, typ, u);
    assert SomeAtOrBelow(stabs, 0, 7, typ, NEXT_TO_TOP);
  }

  function TopRun(typ: uint8): seq<Stab> {
    [Stab(0, typ, 0), Stab(0, typ, 0), Stab(0, typ, 0), Stab(0, typ, NEXT_TO_TOP),
     Stab(0, typ, WORD_SIZE - 1), Stab(0, typ, WORD_SIZE - 1), Stab(0, typ, WORD_SIZE - 1), Stab(0, typ, WORD_SIZE - 1)]
  }

  // ----- Results left of the range -----

  /** The first entry of the range is of the type, and lies above `addr`, or both sit at the
      largest address and no other entry of the type comes up to the first midpoint. */
  ghost predicate EndsBefore(stabs: seq<Stab>, lo: int, hi: int, typ: uint8, addr: uint32) {
    && IsEntry(stabs, lo, hi, typ, lo)
    && (stabs[lo].value > addr
        || (stabs[lo].value == addr == WORD_SIZE - 1 && forall k :: lo < k <= (lo + hi) / 2 ==> stabs[k].typ != typ))
  }

  /** What the loop knows of the left end: while it is still there, whether and how it matched;
      once the right end has passed it, what the first entry is. */
  ghost predicate LeftEnd(stabs: seq<Stab>, lo: int, hi: int, typ: uint8, addr: uint32, s: State) {
    && Ranges(stabs, lo, hi, typ, s)
    && (s.hits == 0 ==> s.addr == addr && (addr == WORD_SIZE - 1 ==> s.r == hi))
    && (s.hits > 0 && s.l == lo ==>
          if addr == WORD_SIZE - 1 then EndsBefore(stabs, lo, hi, typ, addr)
          else IsEntry(stabs, lo, hi, typ, lo) && stabs[lo].value == addr && s.addr == addr + 1)
    && (lo <= hi && s.r < lo ==> EndsBefore(stabs, lo, hi, typ, addr))
  }

  lemma StepLeftEnd(stabs: seq<Stab>, lo: int, hi: int, typ: uint8, addr: uint32, s: State)
    requires LeftEnd(stabs, lo, hi, typ, addr, s) && s.l <= s.r
    ensures LeftEnd(stabs, lo, hi, typ, addr, Step(stabs, typ, s))
  {
    StepRanges(stabs, lo, hi, typ, s);
    var m := ScanLeft(stabs, typ, s.l, (s.l + s.r) / 2);
    if s.l <= m == lo {
      assert IsEntry(stabs, lo, hi, typ, lo);
    }
  }

  lemma {:induction false} RunLeftEnd(stabs: seq<Stab>, lo: int, hi: int, typ: uint8, addr: uint32, s: State)
    requires LeftEnd(stabs, lo, hi, typ, addr, s)
    ensures LeftEnd(stabs, lo, hi, typ, addr, Run(stabs, typ, s))
    decreases s.r - s.l + 1, Rank(stabs, typ, s)
  {
    if s.l <= s.r {
      StepLeftEnd(stabs, lo, hi, typ, addr, s);
      RunLeftEnd(stabs, lo, hi, typ, addr, Step(stabs, typ, s));
    }
  }

  /** When the answer lies left of the range: on every table only in these two cases, on a
      sorted one exactly in them. */
  lemma LeftOfRangeIff(stabs: seq<Stab>, lo: int, hi: int, typ: uint8, addr: uint32)
    requires 0 <= lo && hi < |stabs|
    ensures Found(stabs, lo, hi, typ, addr).0 < lo ==> EndsBefore(stabs, lo, hi, typ, addr)
    ensures Sorted(stabs, lo, hi, typ) ==>
              (Found(stabs, lo, hi, typ, addr).0 < lo <==> EndsBefore(stabs, lo, hi, typ, addr))
  {
    var s := Start(lo, hi, addr);
    RunLeftEnd(stabs, lo, hi, typ, addr, s);
    RunRanges(stabs, lo, hi, typ, s);
    if EndsBefore(stabs, lo, hi, typ, addr) && Sorted(stabs, lo, hi, typ) {
      if stabs[lo].value > addr {
        SearchAllAbove(stabs, lo, hi, typ, addr, lo);
      } else {
        TopLeftOfRange(stabs, lo, hi, typ);
      }
    }
  }

  /** The second case, on every table: one match, and the wrapped address cuts everything off. */
  lemma TopLeftOfRange(stabs: seq<Stab>, lo: int, hi: int, typ: uint8)
    requires EndsBefore(stabs, lo, hi, typ, WORD_SIZE - 1)
    ensures Found(stabs, lo, hi, typ, WORD_SIZE - 1) == (lo - 1, lo - 1)
  {
    var s := Start(lo, hi, WORD_SIZE - 1);
    assert ScanLeft(stabs, typ, lo, (lo + hi) / 2) == lo;
    var t := Step(stabs, typ, s);
    assert t == State(lo, hi, 0, lo, hi, true, 1);
    var u := Step(stabs, typ, t);
    assert u == State(lo, lo - 1, 0, lo, lo - 1, true, 1);
    RunStep(stabs, typ, s);
    RunStep(stabs, typ, t);
  }

  // ----- The loop itself -----

  lemma FoundAtEnd(stabs: seq<Stab>, lo: int, hi: int, typ: uint8, addr: uint32)
    requires 0 <= lo && hi < |stabs|
    ensures var s := Run(stabs, typ, Start(lo, hi, addr));
            && 0 <= s.left && s.right < |stabs|
            && Found(stabs, lo, hi, typ, addr) ==
               if s.any then (BackScan(stabs, typ, s.left, s.right), s.right) else (s.left, s.left - 1)
  {
    RunRanges(stabs, lo, hi, typ, Start(lo, hi, addr));
  }

  /** The earliest loop: back from the midpoint to an entry of the type. */
  method ScanForType(stabs: seq<Stab>, l: int, trueM: int, typ: uint8) returns (m: int, ghost looked: set<int>)
    requires 0 <= l <= trueM < |stabs|
    ensures m == ScanLeft(stabs, typ, l, trueM)
    ensures forall k :: k in looked <==> m <= k <= trueM && l <= k
  {
    m := trueM;
    looked := {};
    while m >= l && stabs[m].typ != typ
      invariant l - 1 <= m <= trueM
      invariant ScanLeft(stabs, typ, l, trueM) == ScanLeft(stabs, typ, l, m)
      invariant forall k :: k in looked <==> m < k <= trueM && l <= k
    {
      looked := looked + {m};
      m := m - 1;
    }
    if m >= l {
      looked := looked + {m};
    }
  }

  /** The last loop: back from the right end to an entry of the type, or to the left end. */
  method RightmostRegion(stabs: seq<Stab>, left: int, right: int, typ: uint8) returns (l: int, ghost looked: set<int>)
    requires 0 <= left && right < |stabs|
    ensures l == BackScan(stabs, typ, left, right)
    ensures forall k :: k in looked <==> l <= k <= right && left < k
  {
    l := right;
    looked := {};
    while l > left && stabs[l].typ != typ
      invariant l <= right && BackScan(stabs, typ, left, right) == BackScan(stabs, typ, left, l)
      invariant forall k :: k in looked <==> l < k <= right && left < k
      decreases l - left
    {
      looked := looked + {l};
      l := l - 1;
    }
    if l > left {
      looked := looked + {l};
    }
  }

  /** The body of the main loop. */
  method Narrow(stabs: seq<Stab>, typ: uint8, ghost s: State, l0: int, r0: int, addr0: uint32, left0: int, right0: int,
                any0: bool)
    returns (l: int, r: int, addr: uint32, left: int, right: int, anyMatches: bool, ghost t: State,
             ghost looked: set<int>)
    requires Fits(stabs) && Inside(stabs, s) && l0 <= r0
    requires s == State(l0, r0, addr0, left0, right0, any0, s.hits)
    ensures t == State(l, r, addr, left, right, anyMatches, t.hits) == Step(stabs, typ, s)
    ensures l0 <= l && r <= r0
    ensures left >= (if left0 < l0 then left0 else l0) && right <= (if right0 > r0 then right0 else r0)
    ensures forall k :: k in looked ==> l0 <= k <= r0
  {
    l, r, addr, left, right, anyMatches := l0, r0, addr0, left0, right0, any0;
    t := Step(stabs, typ, s);
    assert l + r <= INT_MAX;
    var trueM := (l + r) / 2;
    var m;
    m, looked := ScanForType(stabs, l, trueM, typ);
    if m < l {
      l := trueM + 1;
      return;
    }
    anyMatches := true;
    if stabs[m].value < addr {
      left := m;
      l := trueM + 1;
    } else if stabs[m].value > addr {
      right := m - 1;
      r := m - 1;
    } else {
      left := m;
      l := m;
      addr := Bump(addr);
    }
  }

  /** Stores the bracket of `addr` through the two region pointers; `looked` holds the
      indices of all entries read. */
  method StabBinsearch(stabs: seq<Stab>, regionLeft: int, regionRight: int, typ: uint8, addr0: uint32)
    returns (left: int, right: int, ghost looked: set<int>)
    requires Fits(stabs) && 0 <= regionLeft && regionRight < |stabs|
    ensures (left, right) == Found(stabs, regionLeft, regionRight, typ, addr0)
    ensures forall k :: k in looked ==> regionLeft <= k <= regionRight
  {
    looked := {};
    left, right := regionLeft, regionRight;
    var l, r, anyMatches := regionLeft, regionRight, false;
    var addr: uint32 := addr0;
    ghost var seen;
    ghost var s := Start(l, r, addr);
    ghost var end := Run(stabs, typ, s);
    FoundAtEnd(stabs, l, r, typ, addr);
    while l <= r
      invariant regionLeft <= l && r <= regionRight && regionLeft <= left && right <= regionRight
      invariant forall k :: k in looked ==> regionLeft <= k <= regionRight
      invariant s == State(l, r, addr, left, right, anyMatches, s.hits)
      invariant Run(stabs, typ, s) == end
      decreases r - l + 1, Rank(stabs, typ, s)
    {
      RunStep(stabs, typ, s);
      l, r, addr, left, right, anyMatches, s, seen := Narrow(stabs, typ, s, l, r, addr, left, right, anyMatches);
      looked := looked + seen;
    }
    if !anyMatches {
      right := left - 1;
    } else {
      left, seen := RightmostRegion(stabs, left, right, typ);
      looked := looked + seen;
    }
  }
}
