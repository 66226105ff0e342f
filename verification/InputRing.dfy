/** The console input ring: device handlers fill it, cons_getc drains it, nothing checks that it is full. */
module InputRing {
  import opened Machine

  const CONSBUFSIZE := 512

  // ----- The ring as an unbounded stream with a reading position -----

  /** `fed` is everything ever stored; `next` is the index of the character that a read would return. */
  datatype Stream = Stream(fed: seq<uint8>, next: nat) {
    ghost predicate Valid() {
      next <= |fed| < next + CONSBUFSIZE && forall i :: 0 <= i < |fed| ==> fed[i] != 0
    }
  }

  /** A write that catches up with the reader makes it skip a whole buffer. */
  function Feed(s: Stream, c: uint8): Stream {
    Stream(s.fed + [c], if |s.fed| + 1 == s.next + CONSBUFSIZE then s.next + CONSBUFSIZE else s.next)
  }

  /** The characters that one run of an interrupt handler stores. */
  function Stored(data: seq<int>): seq<uint8>
    requires Polled(data)
    decreases |data|
  {
    if data[0] == -1 then []
    else if data[0] == 0 then Stored(data[1..])
    else [data[0]] + Stored(data[1..])
  }

  /** The answers of a device procedure: bytes, then -1 for no more data. */
  predicate Polled(data: seq<int>) {
    |data| > 0 && data[|data| - 1] == -1 && forall i :: 0 <= i < |data| ==> -1 <= data[i] <= 0xFF
  }

  function FeedAll(s: Stream, cs: seq<uint8>): Stream
    decreases |cs|
  {
    if cs == [] then s else FeedAll(Feed(s, cs[0]), cs[1..])
  }

  function Next(s: Stream): uint8 {
    if s.next < |s.fed| then s.fed[s.next] else 0
  }

  function Advance(s: Stream): Stream {
    if s.next < |s.fed| then s.(next := s.next + 1) else s
  }

  /** What the two devices answer to one call of cons_getc. */
  datatype Poll = Poll(serial: seq<int>, keyboard: seq<int>)

  function PollOnce(s: Stream, serialExists: bool, serial: seq<int>, keyboard: seq<int>): Stream
    requires Polled(serial) && Polled(keyboard)
  {
    FeedAll(FeedAll(s, if serialExists then Stored(serial) else []), Stored(keyboard))
  }

  predicate AllPolled(polls: seq<Poll>) {
    forall i :: 0 <= i < |polls| ==> Polled(polls[i].serial) && Polled(polls[i].keyboard)
  }

  /** The last answer, and the stream, after this many calls of cons_getc. */
  function Await(s: Stream, serialExists: bool, polls: seq<Poll>): (int, Stream)
    requires AllPolled(polls)
  {
    if polls == [] then (0, s)
    else
      var last := polls[|polls| - 1];
      var t := PollOnce(Await(s, serialExists, polls[..|polls| - 1]).1, serialExists, last.serial, last.keyboard);
      (Next(t) as int, Advance(t))
  }

  /** Before the `n`-th call nothing was found. */
  ghost predicate Silent(s: Stream, serialExists: bool, polls: seq<Poll>, n: nat)
    requires AllPolled(polls) && n <= |polls|
  {
    forall k :: 0 <= k < n ==> Await(s, serialExists, polls[..k]).0 == 0
  }

  lemma AwaitNext(s: Stream, serialExists: bool, polls: seq<Poll>, k: nat)
    requires k < |polls|
    requires AllPolled(polls)
    ensures var t := PollOnce(Await(s, serialExists, polls[..k]).1, serialExists, polls[k].serial, polls[k].keyboard);
            Await(s, serialExists, polls[..k + 1]) == (Next(t) as int, Advance(t))
  {
    assert polls[..k + 1][..k] == polls[..k];
  }

  // ----- The buffer -----

  /** Different characters within one buffer length occupy different slots. */
  lemma DistinctSlots(j: int, k: int)
    requires j < k < j + CONSBUFSIZE
    ensures j % CONSBUFSIZE != k % CONSBUFSIZE
  {
  }

  lemma NextSlot(k: nat)
    ensures (k + 1) % CONSBUFSIZE == if k % CONSBUFSIZE == CONSBUFSIZE - 1 then 0 else k % CONSBUFSIZE + 1
    ensures (k + CONSBUFSIZE) % CONSBUFSIZE == k % CONSBUFSIZE
  {
  }

  class Ring {
    const buf: array<uint8>
    var rpos: uint32
    var wpos: uint32
    ghost var stream: Stream

    ghost predicate Valid()
      reads this, buf
    {
      && buf.Length == CONSBUFSIZE
      && stream.Valid()
      && rpos == stream.next % CONSBUFSIZE
      && wpos == |stream.fed| % CONSBUFSIZE
      && forall k :: 0 <= k < |stream.fed| && |stream.fed| - CONSBUFSIZE <= k
                     ==> buf[k % CONSBUFSIZE] == stream.fed[k]
    }

    constructor ()
      ensures Valid() && fresh(buf) && stream == Stream([], 0)
    {
      buf := new uint8[CONSBUFSIZE](_ => 0);
      rpos, wpos := 0, 0;
      stream := Stream([], 0);
    }

    method Store(c: uint8)
      requires Valid() && c != 0
      modifies this, buf
      ensures Valid() && stream == Feed(old(stream), c)
    {
      ghost var n := |stream.fed|;
      forall k | n - CONSBUFSIZE < k < n ensures k % CONSBUFSIZE != n % CONSBUFSIZE {
        DistinctSlots(k, n);
      }
      NextSlot(n);
      NextSlot(stream.next + CONSBUFSIZE - 1);
      buf[wpos] := c;
      wpos := wpos + 1;
      if wpos == CONSBUFSIZE {
        wpos := 0;
      }
      stream := Feed(stream, c);
    }

    /** Feeds what a device procedure answers until it answers -1. */
    method ConsIntr(data: seq<int>)
      requires Valid() && Polled(data)
      modifies this, buf
      ensures Valid() && stream == FeedAll(old(stream), Stored(data))
    {
      var i := 0;
      ghost var end := FeedAll(stream, Stored(data));
      while data[i] != -1
        invariant Valid() && 0 <= i < |data| && end == FeedAll(stream, Stored(data[i..]))
        decreases |data| - i
      {
        var c := data[i];
        i := i + 1;
        if c == 0 {
          continue;
        }
        Store(c);
      }
    }

    /** Polls again and again until a character comes, or the given polls run out. */
    method Getchar(serialExists: bool, polls: seq<Poll>) returns (c: int, used: nat)
      requires Valid() && AllPolled(polls)
      modifies this, buf
      ensures Valid() && used <= |polls| && 0 <= c <= 0xFF && (c == 0 ==> used == |polls|)
      ensures (c, stream) == Await(old(stream), serialExists, polls[..used])
      ensures Silent(old(stream), serialExists, polls, used)
    {
      c, used := 0, 0;
      ghost var before := stream;
      while c == 0 && used < |polls|
        invariant Valid() && used <= |polls| && 0 <= c <= 0xFF
        invariant (c, stream) == Await(before, serialExists, polls[..used])
        invariant Silent(before, serialExists, polls, used)
        decreases |polls| - used
      {
        c := PollAgain(serialExists, polls, used, before);
        used := used + 1;
      }
    }

    method PollAgain(serialExists: bool, polls: seq<Poll>, used: nat, ghost before: Stream) returns (c: int)
      requires Valid() && AllPolled(polls) && used < |polls|
      requires stream == Await(before, serialExists, polls[..used]).1
      modifies this, buf
      ensures Valid() && 0 <= c <= 0xFF && (c, stream) == Await(before, serialExists, polls[..used + 1])
    {
      AwaitNext(before, serialExists, polls, used);
      c := ConsGetc(serialExists, polls[used].serial, polls[used].keyboard);
    }

    /** Polls the devices, then takes the next character, or 0 if none is waiting. */
    method ConsGetc(serialExists: bool, serial: seq<int>, keyboard: seq<int>) returns (c: int)
      requires Valid() && Polled(serial) && Polled(keyboard)
      modifies this, buf
      ensures Valid()
      ensures var s := PollOnce(old(stream), serialExists, serial, keyboard);
              c == Next(s) && stream == Advance(s)
              && (c == 0 <==> |s.fed| == s.next)
    {
      if serialExists {
        ConsIntr(serial);
      }
      ConsIntr(keyboard);
      c := Take();
    }

    /** The next character from the buffer, or 0. */
    method Take() returns (c: int)
      requires Valid()
      modifies this
      ensures Valid() && c == Next(old(stream)) && stream == Advance(old(stream))
      ensures c == 0 <==> |stream.fed| == old(stream.next)
    {
      if stream.next < |stream.fed| {
        DistinctSlots(stream.next, |stream.fed|);
        NextSlot(stream.next);
      }
      if rpos != wpos {
        c := buf[rpos];
        rpos := rpos + 1;
        if rpos == CONSBUFSIZE {
          rpos := 0;
        }
        stream := Advance(stream);
        return;
      }
      return 0;
    }
  }

  // ----- Whole runs -----

  datatype Event = Arrive(c: uint8) | Read

  /** What a run has produced: the stream, the characters read, and their places in the stream. */
  datatype Trace = Trace(stream: Stream, out: seq<uint8>, taken: seq<nat>)

  ghost predicate Legal(evs: seq<Event>) {
    forall i :: 0 <= i < |evs| ==> evs[i].Arrive? ==> evs[i].c != 0
  }

  function PlayOne(t: Trace, e: Event): Trace {
    match e
    case Arrive(c) => t.(stream := Feed(t.stream, c))
    case Read =>
      if t.stream.next == |t.stream.fed| then t
      else Trace(Advance(t.stream), t.out + [Next(t.stream)], t.taken + [t.stream.next])
  }

  function Play(evs: seq<Event>): Trace {
    if evs == [] then Trace(Stream([], 0), [], [])
    else PlayOne(Play(evs[..|evs| - 1]), evs[|evs| - 1])
  }

  /** Reads go forward through what was fed, and each gap is a whole number of buffers. */
  ghost predicate InOrder(t: Trace) {
    && |t.out| == |t.taken|
    && (forall i :: 0 <= i < |t.taken| ==> t.taken[i] < |t.stream.fed| && t.out[i] == t.stream.fed[t.taken[i]])
    && (forall i :: 0 <= i < |t.taken| ==> t.taken[i] < t.stream.next && t.taken[i] % 512 == i % 512)
    && (forall i, j :: 0 <= i < j < |t.taken| ==> t.taken[i] < t.taken[j])
    && t.stream.next >= |t.taken|
    && (t.stream.next - |t.taken|) % 512 == 0
  }

  lemma ArrivalKeepsOrder(t: Trace, c: uint8)
    requires t.stream.Valid() && InOrder(t) && c != 0
    ensures PlayOne(t, Arrive(c)).stream.Valid() && InOrder(PlayOne(t, Arrive(c)))
  {
  }

  lemma ReadKeepsOrder(t: Trace)
    requires t.stream.Valid() && InOrder(t)
    ensures PlayOne(t, Read).stream.Valid() && InOrder(PlayOne(t, Read))
  {
    SameSlot(t.stream.next, |t.taken|);
  }

  lemma SameSlot(j: nat, k: nat)
    requires j >= k && (j - k) % CONSBUFSIZE == 0
    ensures j % CONSBUFSIZE == k % CONSBUFSIZE
  {
  }

  lemma {:induction false} ReadsInOrder(evs: seq<Event>)
    requires Legal(evs)
    ensures Play(evs).stream.Valid() && InOrder(Play(evs))
  {
    if evs != [] {
      var before, e := evs[..|evs| - 1], evs[|evs| - 1];
      ReadsInOrder(before);
      match e
      case Arrive(c) => ArrivalKeepsOrder(Play(before), c);
      case Read => ReadKeepsOrder(Play(before));
    }
  }

  /** Characters fed and not yet read. */
  function Unread(evs: seq<Event>): int {
    |Play(evs).stream.fed| - |Play(evs).out|
  }

  /** One event loses something exactly when it is an arrival that makes 512 wait. */
  lemma LosesIffFull(t: Trace, e: Event)
    requires t.stream.Valid() && InOrder(t) && (e.Arrive? ==> e.c != 0)
    ensures var u := PlayOne(t, e);
            && (u.stream.next == |u.out| <==> t.stream.next == |t.out| && |u.stream.fed| - |u.out| < 512)
            && (u.stream.next == |u.out| && t.out <= t.stream.fed ==> u.out <= u.stream.fed)
  {
  }

  /** There were never more than 511 characters waiting. */
  ghost predicate NeverFull(evs: seq<Event>) {
    forall k :: 0 <= k <= |evs| ==> Unread(evs[..k]) < 512
  }

  lemma NeverFullAppend(evs: seq<Event>)
    requires evs != []
    ensures NeverFull(evs) <==> NeverFull(evs[..|evs| - 1]) && Unread(evs) < 512
  {
    var p := evs[..|evs| - 1];
    assert evs[..|evs|] == evs;
    assert forall k :: 0 <= k <= |p| ==> p[..k] == evs[..k];
  }

  /** Nothing has been lost exactly when there were never more than 511 characters waiting. */
  lemma {:induction false} NothingLostIff(evs: seq<Event>)
    requires Legal(evs)
    ensures Play(evs).stream.next == |Play(evs).out| <==> NeverFull(evs)
    ensures NeverFull(evs) ==> Play(evs).out <= Play(evs).stream.fed
  {
    if evs != [] {
      var p := evs[..|evs| - 1];
      ReadsInOrder(p);
      NothingLostIff(p);
      LosesIffFull(Play(p), evs[|evs| - 1]);
      NeverFullAppend(evs);
    }
  }

  /** When both devices have a character, the serial port's comes first. */
  lemma SerialFirst(s: Stream, a: uint8, b: uint8)
    requires a != 0 && b != 0
    ensures PollOnce(s, true, [a as int, -1], [b as int, -1]).fed == s.fed + [a, b]
    ensures PollOnce(s, false, [a as int, -1], [b as int, -1]).fed == s.fed + [b]
  {
    StoredOne(a);
    StoredOne(b);
    FedOne(s, a);
    FedOne(FeedAll(s, [a]), b);
    FedOne(s, b);
    assert s.fed + [a] + [b] == s.fed + [a, b];
  }

  lemma StoredOne(c: uint8)
    requires c != 0
    ensures Polled([c as int, -1]) && Stored([c as int, -1]) == [c]
  {
    assert [c as int, -1][1..] == [-1];
  }

  lemma FedOne(s: Stream, c: uint8)
    ensures FeedAll(s, [c]).fed == s.fed + [c]
  {
    assert [c][1..] == [];
  }

  // ----- Calls as events -----

  function Arrivals(cs: seq<uint8>): seq<Event> {
    seq(|cs|, i requires 0 <= i < |cs| => Arrive(cs[i]))
  }

  /** Feeding the stream is playing arrivals. */
  lemma {:induction false} FeedIsPlay(evs: seq<Event>, cs: seq<uint8>)
    ensures Play(evs + Arrivals(cs)) == Play(evs).(stream := FeedAll(Play(evs).stream, cs))
    decreases |cs|
  {
    if cs == [] {
      assert evs + Arrivals(cs) == evs;
    } else {
      var e := Arrive(cs[0]);
      assert (evs + [e])[..|evs|] == evs;
      FeedIsPlay(evs + [e], cs[1..]);
      assert evs + Arrivals(cs) == evs + [e] + Arrivals(cs[1..]);
    }
  }

  lemma {:induction false} FeedAllAppend(s: Stream, a: seq<uint8>, b: seq<uint8>)
    ensures FeedAll(s, a + b) == FeedAll(FeedAll(s, a), b)
    decreases |a|
  {
    if a == [] {
      assert a + b == b;
    } else {
      assert (a + b)[1..] == a[1..] + b;
      FeedAllAppend(Feed(s, a[0]), a[1..], b);
    }
  }

  lemma {:induction false} StoredNonzero(data: seq<int>)
    requires Polled(data)
    ensures forall i :: 0 <= i < |Stored(data)| ==> Stored(data)[i] != 0
    decreases |data|
  {
    if data[0] != -1 {
      StoredNonzero(data[1..]);
    }
  }

  /** What one call of cons_getc stores. */
  function StoredByCall(serialExists: bool, serial: seq<int>, keyboard: seq<int>): seq<uint8>
    requires Polled(serial) && Polled(keyboard)
  {
    (if serialExists then Stored(serial) else []) + Stored(keyboard)
  }

  /** A call of cons_getc is the arrival of what the devices answer, and one read: the run
      theorems hold of every sequence of calls. */
  lemma GetcIsPlay(evs: seq<Event>, serialExists: bool, serial: seq<int>, keyboard: seq<int>)
    requires Legal(evs) && Polled(serial) && Polled(keyboard)
    ensures var all := evs + Arrivals(StoredByCall(serialExists, serial, keyboard)) + [Read];
            var s := PollOnce(Play(evs).stream, serialExists, serial, keyboard);
            && Legal(all)
            && Play(all).stream == Advance(s)
            && Play(all).out == Play(evs).out + (if Next(s) == 0 then [] else [Next(s)])
  {
    var cs := StoredByCall(serialExists, serial, keyboard);
    var mid := evs + Arrivals(cs);
    StoredNonzero(serial);
    StoredNonzero(keyboard);
    FeedIsPlay(evs, cs);
    FeedAllAppend(Play(evs).stream, if serialExists then Stored(serial) else [], Stored(keyboard));
    ReadIsPlay(mid);
  }

  lemma ReadIsPlay(evs: seq<Event>)
    requires Legal(evs)
    ensures var s := Play(evs).stream;
            && Play(evs + [Read]).stream == Advance(s)
            && Play(evs + [Read]).out == Play(evs).out + (if Next(s) == 0 then [] else [Next(s)])
  {
    ReadsInOrder(evs);
    assert (evs + [Read])[..|evs|] == evs;
  }

  /** What was read stays read, and what is fed is added at the end. */
  lemma {:induction false} PlayGrows(evs: seq<Event>, more: seq<Event>)
    ensures Play(evs).out <= Play(evs + more).out && Play(evs).stream.fed <= Play(evs + more).stream.fed
    decreases |more|
  {
    if more == [] {
      assert evs + more == evs;
    } else {
      var init, last := more[..|more| - 1], more[|more| - 1];
      PlayGrows(evs, init);
      assert (evs + more)[..|evs + more| - 1] == evs + init;
    }
  }
}
