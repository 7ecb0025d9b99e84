/** pipe.c: a ring of PIPESIZE bytes with free-running 32-bit counters, shared by any number of
    readers and writers. A step is what a process does from taking p->lock until it sleeps or
    returns; a process woken inside the call goes on with another such step. */
module Pipe {
  const PIPESIZE: nat := 512
  const UINT: nat := 0x1_0000_0000

  datatype Ring = Ring(data: seq<int>, nread: nat, nwrite: nat)

  ghost predicate Valid(r: Ring) {
    |r.data| == PIPESIZE && r.nread < UINT && r.nwrite < UINT && Count(r) <= PIPESIZE
  }

  // nwrite - nread in 32-bit arithmetic.
  function Count(r: Ring): nat {
    (r.nwrite - r.nread) % UINT
  }

  predicate Full(r: Ring) {
    r.nwrite == (r.nread + PIPESIZE) % UINT
  }

  predicate Empty(r: Ring) {
    r.nread == r.nwrite
  }

  /** The bytes in flight, oldest first. */
  function Content(r: Ring): (c: seq<int>)
    requires |r.data| == PIPESIZE
    ensures |c| == Count(r)
  {
    seq(Count(r), i requires 0 <= i => r.data[(r.nread + i) % PIPESIZE])
  }

  function Store(r: Ring, b: int): Ring
    requires |r.data| == PIPESIZE
  {
    Ring(r.data[r.nwrite % PIPESIZE := b], r.nread, (r.nwrite + 1) % UINT)
  }

  function Fetch(r: Ring): Ring {
    r.(nread := (r.nread + 1) % UINT)
  }

  // The counters may wrap: PIPESIZE divides 2^32.
  lemma FullEmpty(r: Ring)
    requires Valid(r)
    ensures Full(r) <==> Count(r) == PIPESIZE
    ensures Empty(r) <==> Count(r) == 0
  {
  }

  lemma SlotOf(r: Ring, i: nat)
    requires Valid(r) && i <= PIPESIZE
    ensures (r.nread + Count(r)) % PIPESIZE == r.nwrite % PIPESIZE
    ensures i < Count(r) < PIPESIZE ==> (r.nread + i) % PIPESIZE != r.nwrite % PIPESIZE
    ensures ((r.nread + 1) % UINT + i) % PIPESIZE == (r.nread + 1 + i) % PIPESIZE
  {
    CountSum(r);
    hide Count;
    ModDrop(r.nread + Count(r));
    ModDrop(r.nread + 1);
    if i < Count(r) < PIPESIZE { DifferentSlots(r.nread + i, Count(r) - i); }
    ModAdd((r.nread + 1) % UINT, r.nread + 1, i);
  }

  lemma CountSum(r: Ring)
    requires Valid(r)
    ensures (r.nread + Count(r)) % UINT == r.nwrite
  {
  }

  lemma ModDrop(x: nat)
    ensures x % UINT % PIPESIZE == x % PIPESIZE
  {
    assert UINT == 8388608 * PIPESIZE;
    assert x == PIPESIZE * (8388608 * (x / UINT)) + x % UINT;
  }

  lemma DifferentSlots(x: nat, d: nat)
    requires 0 < d < PIPESIZE
    ensures x % PIPESIZE != (x + d) % PIPESIZE
  {
  }

  lemma ModAdd(x: nat, y: nat, i: nat)
    requires x % PIPESIZE == y % PIPESIZE
    ensures (x + i) % PIPESIZE == (y + i) % PIPESIZE
  {
    ModShift(x, i);
    ModShift(y, i);
  }

  lemma ModShift(x: nat, i: nat)
    ensures (x + i) % PIPESIZE == (x % PIPESIZE + i) % PIPESIZE
  {
    var q, m := x / PIPESIZE, (x % PIPESIZE + i) % PIPESIZE;
    assert x + i == PIPESIZE * (q + (x % PIPESIZE + i) / PIPESIZE) + m;
  }

  lemma Counts(r: Ring, b: int)
    requires Valid(r)
    ensures Count(r) < PIPESIZE ==> Count(Store(r, b)) == Count(r) + 1
    ensures Count(r) > 0 ==> Count(Fetch(r)) == Count(r) - 1
  {
    ModSmall(r.nwrite - r.nread);
    ModSmall(Store(r, b).nwrite - r.nread);
    ModSmall(r.nwrite - Fetch(r).nread);
  }

  lemma ModSmall(x: int)
    requires 0 <= x + UINT && x < UINT
    ensures x % UINT == if x < 0 then x + UINT else x
  {
  }

  lemma StoreContent(r: Ring, b: int)
    requires Valid(r) && !Full(r)
    ensures Valid(Store(r, b)) && Content(Store(r, b)) == Content(r) + [b]
  {
    FullEmpty(r);
    Counts(r, b);
    var r' := Store(r, b);
    forall i | 0 <= i < Count(r') ensures Content(r')[i] == (Content(r) + [b])[i] {
      SlotOf(r, i);
    }
  }

  lemma FetchContent(r: Ring)
    requires Valid(r) && !Empty(r)
    ensures Valid(Fetch(r)) && Content(r) == [r.data[r.nread % PIPESIZE]] + Content(Fetch(r))
  {
    FullEmpty(r);
    Counts(r, 0);
    forall i | 0 <= i < Count(Fetch(r)) ensures Content(Fetch(r))[i] == Content(r)[1..][i] {
      SlotOf(r, i);
    }
    assert Content(r)[1..] == Content(Fetch(r));
  }

  // Store bytes until the ring is full.
  function Fill(r: Ring, bytes: seq<int>): (r': Ring)
    requires |r.data| == PIPESIZE
    ensures |r'.data| == PIPESIZE
    decreases |bytes|
  {
    if bytes == [] || Full(r) then r else Fill(Store(r, bytes[0]), bytes[1..])
  }

  function Min(a: nat, b: nat): nat { if a < b then a else b }

  lemma {:induction false} FillContent(r: Ring, bytes: seq<int>)
    requires Valid(r)
    ensures Valid(Fill(r, bytes))
    ensures Content(Fill(r, bytes)) == Content(r) + bytes[..Min(|bytes|, PIPESIZE - Count(r))]
    decreases |bytes|
  {
    FullEmpty(r);
    if bytes != [] && !Full(r) {
      StoreContent(r, bytes[0]);
      FillContent(Store(r, bytes[0]), bytes[1..]);
      var k := Min(|bytes|, PIPESIZE - Count(r));
      assert bytes[..k] == [bytes[0]] + bytes[1..][..k - 1];
    }
  }

  // Fetch up to n bytes.
  function Drain(r: Ring, n: nat): (x: (Ring, seq<int>))
    requires |r.data| == PIPESIZE
    ensures |x.0.data| == PIPESIZE
    decreases n
  {
    if n == 0 || Empty(r) then (r, []) else
      var (r', got) := Drain(Fetch(r), n - 1);
      (r', [r.data[r.nread % PIPESIZE]] + got)
  }

  lemma DrainStep(r: Ring, n: nat)
    requires |r.data| == PIPESIZE
    ensures n == 0 || Empty(r) ==> Drain(r, n) == (r, [])
    ensures n > 0 && !Empty(r) ==>
      var rest := Drain(Fetch(r), n - 1); Drain(r, n) == (rest.0, [r.data[r.nread % PIPESIZE]] + rest.1)
  {
  }

  lemma {:induction false} DrainContent(r: Ring, n: nat)
    requires Valid(r)
    ensures var (r', got) := Drain(r, n);
      Valid(r') && Content(r) == got + Content(r') && |got| == Min(n, Count(r))
    decreases n
  {
    hide Drain, Fetch, Empty, Full;
    FullEmpty(r);
    DrainStep(r, n);
    if n > 0 && !Empty(r) {
      FetchContent(r);
      DrainContent(Fetch(r), n - 1);
    }
  }

  // ---------- the pipe and its users ----------

  // readers and writers: processes asleep on &nread and on &nwrite. stored and taken are history:
  // everything ever put in and everything ever handed out.
  datatype Sys = Sys(ring: Ring, readopen: bool, writeopen: bool, readers: set<nat>, writers: set<nat>,
                     stored: seq<int>, taken: seq<int>)

  datatype Outcome = Returned(n: int) | Slept

  datatype Step =
    | Write(w: nat, bytes: seq<int>, killed: bool)   // bytes: what is left of the request
    | Read(w: nat, n: nat, killed: bool)
    | Close(writable: bool)
    | Kill(w: nat)

  // A sleeping process takes no steps; once both ends are closed the pipe is freed.
  predicate Enabled(s: Sys, step: Step) {
    && (s.readopen || s.writeopen)
    && (step.Write? || step.Read? ==> step.w !in s.readers && step.w !in s.writers)
  }

  /** pipewrite: store what fits; if something is left over, fail without a wakeup when the reader is
      gone or the process has been killed, else wake the readers and sleep. */
  function DoWrite(s: Sys, w: nat, bytes: seq<int>, killed: bool): (r: (Sys, Outcome))
    requires |s.ring.data| == PIPESIZE
  {
    var k := Min(|bytes|, PIPESIZE - Min(PIPESIZE, Count(s.ring)));
    var s' := s.(ring := Fill(s.ring, bytes), stored := s.stored + bytes[..k]);
    if k == |bytes| then (s'.(readers := {}), Returned(|bytes|))
    else if !s.readopen || killed then (s', Returned(-1))
    else (s'.(readers := {}, writers := s.writers + {w}), Slept)
  }

  /** piperead: sleep while the pipe is empty and the writer is there; else take up to n bytes. */
  function DoRead(s: Sys, w: nat, n: nat, killed: bool): (r: (Sys, Outcome))
    requires |s.ring.data| == PIPESIZE
  {
    if Empty(s.ring) && s.writeopen then
      if killed then (s, Returned(-1)) else (s.(readers := s.readers + {w}), Slept)
    else
      var (ring, got) := Drain(s.ring, n);
      (s.(ring := ring, taken := s.taken + got, writers := {}), Returned(|got|))
  }

  function DoClose(s: Sys, writable: bool): Sys {
    if writable then s.(writeopen := false, readers := {}) else s.(readopen := false, writers := {})
  }

  function Apply(s: Sys, step: Step): Sys
    requires |s.ring.data| == PIPESIZE
  {
    match step
    case Write(w, bytes, killed) => DoWrite(s, w, bytes, killed).0
    case Read(w, n, killed) => DoRead(s, w, n, killed).0
    case Close(writable) => DoClose(s, writable)
    case Kill(w) => s.(readers := s.readers - {w}, writers := s.writers - {w})
  }

  /** First in, first out: what has been handed out, followed by what is in flight, is what was stored. */
  ghost predicate Fifo(s: Sys) {
    Valid(s.ring) && s.stored == s.taken + Content(s.ring)
  }

  ghost predicate WritersOk(s: Sys) {
    s.writers != {} ==> Full(s.ring) && s.readopen
  }

  ghost predicate ReadersOk(s: Sys) {
    s.readers != {} && s.readopen ==> Empty(s.ring) && s.writeopen
  }

  lemma WriteInv(s: Sys, w: nat, bytes: seq<int>, killed: bool)
    requires Fifo(s) && WritersOk(s)
    ensures Fifo(DoWrite(s, w, bytes, killed).0) && WritersOk(DoWrite(s, w, bytes, killed).0)
  {
    FullEmpty(s.ring);
    FillContent(s.ring, bytes);
    FullEmpty(Fill(s.ring, bytes));
  }

  lemma ReadInv(s: Sys, w: nat, n: nat, killed: bool)
    requires Fifo(s) && WritersOk(s)
    ensures Fifo(DoRead(s, w, n, killed).0) && WritersOk(DoRead(s, w, n, killed).0)
  {
    DrainContent(s.ring, n);
    FullEmpty(s.ring);
  }

  lemma StepInv(s: Sys, step: Step)
    requires Fifo(s) && WritersOk(s)
    ensures Fifo(Apply(s, step)) && WritersOk(Apply(s, step))
  {
    match step
    case Write(w, bytes, killed) => WriteInv(s, w, bytes, killed);
    case Read(w, n, killed) => ReadInv(s, w, n, killed);
    case _ =>
  }

  // A killed writer gives up in the middle of a long write and leaves the readers asleep.
  predicate Abandons(s: Sys, step: Step) {
    s.readers != {} && s.readopen && step.Write? && step.killed && |step.bytes| > PIPESIZE
  }

  /** The readers' side fails exactly at the steps where a killed process abandons a write of more
      than PIPESIZE bytes while a reader sleeps. */
  lemma ReadersExactly(s: Sys, step: Step)
    requires Fifo(s) && WritersOk(s) && ReadersOk(s) && Enabled(s, step)
    ensures ReadersOk(Apply(s, step)) <==> !Abandons(s, step)
  {
    FullEmpty(s.ring);
    StepInv(s, step);
    FullEmpty(Apply(s, step).ring);
    match step
    case Write(w, bytes, killed) =>
      FillContent(s.ring, bytes);
    case Read(w, n, killed) =>
      DrainContent(s.ring, n);
    case _ =>
  }

  // ---------- what the calls return ----------

  function Room(r: Ring): nat
    requires |r.data| == PIPESIZE
  {
    PIPESIZE - Min(PIPESIZE, |Content(r)|)
  }

  /** A write appends what fits. It returns the number of bytes exactly if all fit; otherwise the pipe is
      full, and the writer sleeps if a reader is there and it has not been killed, and fails if not. */
  lemma WriteOutcome(s: Sys, w: nat, bytes: seq<int>, killed: bool)
    requires Fifo(s) && WritersOk(s)
    ensures var (e, out) := DoWrite(s, w, bytes, killed);
      && Content(e.ring) == Content(s.ring) + bytes[..Min(|bytes|, Room(s.ring))] && e.taken == s.taken
      && (out == Returned(|bytes|) <==> |bytes| <= Room(s.ring))
      && (out == Slept <==> |bytes| > Room(s.ring) && s.readopen && !killed)
      && (out == Returned(-1) <==> |bytes| > Room(s.ring) && !(s.readopen && !killed))
      && (out != Returned(|bytes|) ==> Full(e.ring))
  {
    FullEmpty(s.ring);
    FillContent(s.ring, bytes);
    FullEmpty(Fill(s.ring, bytes));
    hide Fill, Full, Content;
  }

  /** A read sleeps exactly on an empty pipe with a writer, unless the reader has been killed; then it
      fails. In all other cases it takes the oldest bytes, as many as there are, up to n. */
  lemma ReadOutcome(s: Sys, w: nat, n: nat, killed: bool)
    requires Fifo(s)
    ensures var (e, out) := DoRead(s, w, n, killed); var k := Min(n, |Content(s.ring)|);
      && (out == Slept <==> Content(s.ring) == [] && s.writeopen && !killed)
      && (out == Returned(-1) <==> Content(s.ring) == [] && s.writeopen && killed)
      && (out.Returned? && out.n != -1 ==> out.n == k)
      && Content(e.ring) == Content(s.ring)[k..] && e.taken == s.taken + Content(s.ring)[..k] && e.stored == s.stored
  {
    FullEmpty(s.ring);
    DrainContent(s.ring, n);
    var (ring, got) := Drain(s.ring, n);
    assert got == Content(s.ring)[..|got|] && Content(ring) == Content(s.ring)[|got|..];
    hide Drain, Content;
  }

  // The steps that wake the readers: a write that does not fail, and closing the write end.
  predicate WakesReaders(s: Sys, step: Step)
    requires |s.ring.data| == PIPESIZE
  {
    (step.Write? && (|step.bytes| <= Room(s.ring) || (s.readopen && !step.killed))) || step == Close(true)
  }

  // The steps that wake the writers: a read that gets through, and closing the read end.
  predicate WakesWriters(s: Sys, step: Step)
    requires |s.ring.data| == PIPESIZE
  {
    (step.Read? && (Content(s.ring) != [] || !s.writeopen)) || step == Close(false)
  }

  /** Who sleeps after a step: the process that has just gone to sleep, and whoever slept before and was
      neither woken nor killed. */
  lemma SleepersExactly(s: Sys, step: Step, w: nat)
    requires Fifo(s) && WritersOk(s) && Enabled(s, step)
    ensures w in Apply(s, step).readers <==>
      || (step.Read? && step.w == w && Content(s.ring) == [] && s.writeopen && !step.killed)
      || (w in s.readers && step != Kill(w) && !WakesReaders(s, step))
    ensures w in Apply(s, step).writers <==>
      || (step.Write? && step.w == w && |step.bytes| > Room(s.ring) && s.readopen && !step.killed)
      || (w in s.writers && step != Kill(w) && !WakesWriters(s, step))
  {
    FullEmpty(s.ring);
    hide Fill, Drain, Content;
  }

  // ---------- whole runs ----------

  ghost predicate Runs(s: Sys, steps: seq<Step>)
    decreases |steps|
  {
    steps == [] || (Enabled(s, steps[0]) && |s.ring.data| == PIPESIZE && Runs(Apply(s, steps[0]), steps[1..]))
  }

  ghost function After(s: Sys, steps: seq<Step>): Sys
    requires Runs(s, steps)
    decreases |steps|
  {
    if steps == [] then s else After(Apply(s, steps[0]), steps[1..])
  }

  /** pipealloc, with the counters and the buffer at any starting point. */
  ghost predicate Fresh(s: Sys) {
    && Valid(s.ring) && Empty(s.ring) && s.readopen && s.writeopen && s.readers == {} && s.writers == {}
    && s.stored == [] && s.taken == []
  }

  ghost predicate NeverAbandons(s: Sys, steps: seq<Step>)
    requires Runs(s, steps)
    decreases |steps|
  {
    steps == [] || (!Abandons(s, steps[0]) && NeverAbandons(Apply(s, steps[0]), steps[1..]))
  }

  lemma {:induction false} RunInv(s: Sys, steps: seq<Step>)
    requires Fifo(s) && WritersOk(s) && Runs(s, steps)
    ensures Fifo(After(s, steps)) && WritersOk(After(s, steps))
    ensures ReadersOk(s) && NeverAbandons(s, steps) ==> ReadersOk(After(s, steps))
    decreases |steps|
  {
    if steps != [] {
      StepInv(s, steps[0]);
      if ReadersOk(s) && NeverAbandons(s, steps) { ReadersExactly(s, steps[0]); }
      RunInv(Apply(s, steps[0]), steps[1..]);
    }
  }

  /** In every run the bytes handed out are a prefix of the bytes stored, at most PIPESIZE are in
      flight, a sleeping writer means a full pipe with a reader, and, unless a killed process abandons
      a long write, a sleeping reader means an empty pipe with a writer. */
  lemma PipeCorrect(s: Sys, steps: seq<Step>)
    requires Fresh(s) && Runs(s, steps)
    ensures var e := After(s, steps);
      && Valid(e.ring) && e.taken <= e.stored && |e.stored| - |e.taken| <= PIPESIZE && e.stored == e.taken + Content(e.ring)
      && (e.writers != {} ==> Full(e.ring) && e.readopen)
      && (NeverAbandons(s, steps) && e.readers != {} && e.readopen ==> Empty(e.ring) && e.writeopen)
  {
    FullEmpty(s.ring);
    RunInv(s, steps);
  }

  /** An end is open exactly until the run closes it. */
  lemma {:induction false} EndsExactly(s: Sys, steps: seq<Step>)
    requires Runs(s, steps)
    ensures After(s, steps).writeopen <==> s.writeopen && Close(true) !in steps
    ensures After(s, steps).readopen <==> s.readopen && Close(false) !in steps
    decreases |steps|
  {
    if steps != [] {
      hide Fill, Drain, Content;
      EndsExactly(Apply(s, steps[0]), steps[1..]);
      assert steps == [steps[0]] + steps[1..];
    }
  }

  predicate Awake(s: Sys, w: nat) {
    w !in s.readers && w !in s.writers
  }

  /** End of file: once a run has closed the write end, no read sleeps or fails; it returns what is left,
      nothing at the end, and one that asks for enough has then taken everything ever stored. */
  lemma EndOfFile(s: Sys, steps: seq<Step>, w: nat, n: nat, killed: bool)
    requires Fresh(s) && Runs(s, steps) && Close(true) in steps
    ensures var e := After(s, steps);
      && |e.ring.data| == PIPESIZE
      && var (e', out) := DoRead(e, w, n, killed);
         out == Returned(Min(n, |Content(e.ring)|)) && (n >= |Content(e.ring)| ==> e'.taken == e.stored)
    ensures Close(false) !in steps && Awake(After(s, steps), w) ==> Enabled(After(s, steps), Read(w, n, killed))
  {
    PipeCorrect(s, steps);
    EndsExactly(s, steps);
    var e := After(s, steps);
    ReadOutcome(e, w, n, killed);
    hide Drain, Content;
    assert Content(e.ring)[..|Content(e.ring)|] == Content(e.ring);
  }

  /** Broken pipe: once a run has closed the read end, no write sleeps; it fails exactly if it does not fit. */
  lemma BrokenPipe(s: Sys, steps: seq<Step>, w: nat, bytes: seq<int>, killed: bool)
    requires Fresh(s) && Runs(s, steps) && Close(false) in steps
    ensures var e := After(s, steps);
      && |e.ring.data| == PIPESIZE
      && DoWrite(e, w, bytes, killed).1 == Returned(if |bytes| <= Room(e.ring) then |bytes| else -1)
    ensures Close(true) !in steps && Awake(After(s, steps), w) ==> Enabled(After(s, steps), Write(w, bytes, killed))
  {
    PipeCorrect(s, steps);
    EndsExactly(s, steps);
    WriteOutcome(After(s, steps), w, bytes, killed);
    hide Fill, Content;
  }

  /** The exception happens: a reader sleeps on an empty pipe, a killed process writes PIPESIZE + 1
      bytes and returns -1, and the reader sleeps on beside a full pipe. */
  lemma ReaderLeftAsleep(s: Sys, bytes: seq<int>)
    requires Fresh(s) && |bytes| == PIPESIZE + 1
    ensures var steps := [Read(1, 1, false), Write(2, bytes, true)];
      Runs(s, steps) && After(s, steps).readers == {1} && After(s, steps).readopen && Full(After(s, steps).ring)
  {
    var steps := [Read(1, 1, false), Write(2, bytes, true)];
    var s1 := Apply(s, steps[0]);
    var s2 := Apply(s1, steps[1]);
    assert steps[1..] == [steps[1]] && steps[1..][1..] == [];
    FullEmpty(s.ring);
    FillContent(s1.ring, bytes);
    FullEmpty(s2.ring);
    assert Runs(s2, []) && After(s2, []) == s2;
    assert Runs(s1, steps[1..]) && After(s1, steps[1..]) == s2;
  }

  // ---------- pipe.c ----------

  class PipeBuf {
    const data: array<int>
    var nread: nat
    var nwrite: nat
    var readopen: bool
    var writeopen: bool
    var readers: set<nat>
    var writers: set<nat>
    ghost var stored: seq<int>
    ghost var taken: seq<int>

    ghost function View(): Sys
      reads this, data
    {
      Sys(Ring(data[..], nread, nwrite), readopen, writeopen, readers, writers, stored, taken)
    }

    /** pipealloc */
    constructor ()
      ensures Fresh(View()) && fresh(data)
    {
      data := new int[PIPESIZE](_ => 0);
      nread, nwrite, readopen, writeopen := 0, 0, true, true;
      readers, writers, stored, taken := {}, {}, [], [];
    }

    ghost function R(): Ring
      reads this, data
    {
      Ring(data[..], nread, nwrite)
    }

    method PutByte(b: int)
      requires Valid(R()) && !Full(R())
      modifies this`nwrite, data
      ensures R() == Store(old(R()), b) && Valid(R()) && Content(R()) == old(Content(R())) + [b]
    {
      StoreContent(R(), b);
      data[nwrite % PIPESIZE] := b;
      nwrite := (nwrite + 1) % UINT;
      assert R() == Store(old(R()), b);
    }

    // The for loop of pipewrite, up to a full ring.
    method StoreLoop(addr: seq<int>) returns (i: nat)
      requires Valid(R())
      modifies this`nwrite, data
      ensures Valid(R()) && R() == Fill(old(R()), addr) && i == Min(|addr|, PIPESIZE - Count(old(R())))
    {
      ghost var r := R();
      i := 0;
      assert addr[0..] == addr;
      while i < |addr| && nwrite != (nread + PIPESIZE) % UINT
        invariant 0 <= i <= |addr| && Valid(R()) && Fill(R(), addr[i..]) == Fill(r, addr)
        invariant Count(R()) == Count(r) + i
      {
        assert addr[i..][0] == addr[i] && addr[i..][1..] == addr[i + 1..];
        PutByte(addr[i]);
        i := i + 1;
      }
      FullEmpty(R());
    }

    /** One stretch of pipewrite by process w, with `addr` the bytes that are left to write. */
    method PipeWrite(w: nat, addr: seq<int>, killed: bool) returns (out: Outcome)
      requires Fifo(View()) && WritersOk(View())
      modifies this, data
      ensures Fifo(View()) && WritersOk(View())
      ensures (View(), out) == DoWrite(old(View()), w, addr, killed)
    {
      WriteInv(View(), w, addr, killed);
      var i := StoreLoop(addr);
      stored := stored + addr[..i];
      if i < |addr| {
        if !readopen || killed {
          return Returned(-1);
        }
        readers := {};
        writers := writers + {w};
        return Slept;
      }
      readers := {};
      return Returned(|addr|);
    }

    // The copy loop of piperead.
    method FetchLoop(n: nat) returns (addr: seq<int>)
      requires Valid(R())
      modifies this`nread
      ensures (R(), addr) == Drain(old(R()), n)
    {
      hide Drain, Count, Content;
      ghost var all := Drain(R(), n);
      var i := 0;
      addr := [];
      while i < n && nread != nwrite
        invariant 0 <= i <= n && Valid(R())
        invariant Drain(R(), n - i).0 == all.0 && addr + Drain(R(), n - i).1 == all.1
      {
        FetchContent(R());
        DrainStep(R(), n - i);
        ghost var rest := Drain(Fetch(R()), n - i - 1).1;
        assert addr + ([data[nread % PIPESIZE]] + rest) == addr + [data[nread % PIPESIZE]] + rest;
        addr := addr + [data[nread % PIPESIZE]];
        nread := (nread + 1) % UINT;
        i := i + 1;
      }
      DrainStep(R(), n - i);
      assert addr + [] == addr;
    }

    /** One stretch of piperead by process w. */
    method PipeRead(w: nat, n: nat, killed: bool) returns (out: Outcome, addr: seq<int>)
      requires Fifo(View()) && WritersOk(View())
      modifies this
      ensures Fifo(View()) && WritersOk(View())
      ensures (View(), out) == DoRead(old(View()), w, n, killed) && taken == old(taken) + addr
    {
      ReadInv(View(), w, n, killed);
      addr := [];
      if nread == nwrite && writeopen {
        if killed {
          return Returned(-1), [];
        }
        readers := readers + {w};
        return Slept, [];
      }
      addr := FetchLoop(n);
      taken := taken + addr;
      writers := {};
      return Returned(|addr|), addr;
    }

    /** pipeclose; the pipe is freed with its second end. */
    method PipeClose(writable: bool) returns (freed: bool)
      modifies this
      ensures View() == DoClose(old(View()), writable)
      ensures writeopen == (old(writeopen) && !writable) && readopen == (old(readopen) && writable)
      ensures if writable then readers == {} && writers == old(writers) else writers == {} && readers == old(readers)
      ensures freed <==> !readopen && !writeopen
    {
      if writable {
        writeopen := false;
        readers := {};
      } else {
        readopen := false;
        writers := {};
      }
      freed := !readopen && !writeopen;
    }
  }
}
