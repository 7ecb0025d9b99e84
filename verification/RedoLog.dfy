/** log.c in its own form: the in-memory log, the copy loops of commit and recovery, and the disk
    they write. Every bwrite is recorded in `trace`, so a contract over the trace speaks about a
    crash after any single write. */
module RedoLog {
  import opened LogFormat

  const WORDS: nat := 128   // BSIZE / sizeof(int)

  ghost predicate RecoversTo(L: Layout, d: Disk, m: map<int, Block>) {
    GoodDisk(L, d) && Durable(L, d) == m
  }

  // The pinned buffers on top of the home blocks.
  lemma Overlay(L: Layout, d: Disk, lh: seq<int>, cache: map<int, Block>)
    requires DiskOk(L, d) && Entries(L, lh) && forall b :: b in cache <==> b in lh
    ensures var view := HomeOf(L, d) + cache;
      && view.Keys == (set b: int | 0 <= b < L.size && L.Home(b))
      && (forall i :: 0 <= i < |lh| ==> lh[i] in cache && view[lh[i]] == cache[lh[i]])
      && (forall b: int :: L.Home(b) && b !in lh ==> d[b] == view[b])
  {
    assert forall i :: 0 <= i < |lh| ==> lh[i] in cache;
  }

  // A block that is listed already is not listed again.
  function Logged(lh: seq<int>, b: int): seq<int> {
    if b in lh then lh else lh + [b]
  }

  lemma LoggedListed(L: Layout, lh: seq<int>, b: int)
    requires Entries(L, lh) && Distinct(lh) && L.Home(b) && |lh| < L.Capacity()
    ensures Entries(L, Logged(lh, b)) && Distinct(Logged(lh, b))
    ensures forall c :: c in Logged(lh, b) <==> c in lh || c == b
  {
  }

  lemma OverlayWrite(home: map<int, Block>, cache: map<int, Block>, b: int, data: Block)
    ensures home + cache[b := data] == (home + cache)[b := data]
  {
  }

  // With an empty header a write outside the home area changes nothing.
  lemma EmptyLogRecovers(L: Layout, d: Disk, d': Disk)
    requires GoodDisk(L, d') && DiskOk(L, d) && HeaderCount(d'[L.logstart]) == 0
    requires forall b :: L.Home(b) ==> d'[b] == d[b]
    ensures RecoversTo(L, d', HomeOf(L, d))
  {
    DurableEmpty(L, d');
    assert HomeOf(L, d') == HomeOf(L, d);
  }

  lemma InstalledHome(L: Layout, d: Disk, es: seq<int>)
    requires GoodDisk(L, d) && HeaderBlocks(d[L.logstart]) == es
    ensures HomeOf(L, Installed(L, d, es, |es|)) == Durable(L, d)
  {
  }

  class Log {
    const L: Layout
    var disk: Disk
    var cache: map<int, Block>   // the pinned buffers: contents passed to log_write, not yet installed
    var n: nat                   // log.lh.n
    const block: array<int>      // log.lh.block
    var outstanding: nat
    var committing: bool
    ghost var trace: seq<Disk>   // the disk after each bwrite

    ghost predicate Shape()
      reads this
    {
      && block.Length == LOGSIZE && GoodDisk(L, disk) && |disk[L.logstart].words| == WORDS
      && n <= L.Capacity()
    }

    ghost predicate Listed()
      reads this, block
      requires Shape()
    {
      Entries(L, block[..n]) && Distinct(block[..n])
    }

    // Between commits: nothing in the on-disk log, one pinned buffer per entry.
    ghost predicate Valid()
      reads this, block
    {
      Shape() && Listed() && HeaderCount(disk[L.logstart]) == 0 && forall b :: b in cache <==> b in block[..n]
    }

    // What a reader sees: pinned contents over the home blocks.
    ghost function View(): map<int, Block>
      reads this
      requires Shape()
    {
      HomeOf(L, disk) + cache
    }

    // A freshly booted kernel on a given disk, before recovery.
    constructor (layout: Layout, d: Disk)
      requires GoodDisk(layout, d) && |d[layout.logstart].words| == WORDS
      ensures Shape() && L == layout && disk == d && n == 0 && outstanding == 0 && !committing && trace == []
      ensures cache == map[] && fresh(block)
    {
      L := layout;
      disk := d;
      cache := map[];
      n := 0;
      block := new int[LOGSIZE];
      outstanding := 0;
      committing := false;
      trace := [];
    }

    method Bwrite(b: int, data: Block)
      requires 0 <= b < |disk|
      modifies this`disk, this`trace
      ensures disk == old(disk)[b := data] && trace == old(trace) + [disk]
    {
      disk := disk[b := data];
      trace := trace + [disk];
    }

    // The writes since the trace had length `from` all left a disk that recovers to m.
    ghost predicate AllRecoverTo(from: nat, m: map<int, Block>)
      reads this
    {
      from <= |trace| && forall i :: from <= i < |trace| ==> RecoversTo(L, trace[i], m)
    }

    /** Copy the pinned buffers to the log area. No crash in here loses or adds anything. */
    method WriteLog()
      requires Valid()
      modifies this`disk, this`trace
      ensures Shape() && disk[L.logstart] == old(disk[L.logstart])
      ensures forall b :: L.Home(b) ==> disk[b] == old(disk)[b]
      ensures forall i :: 0 <= i < n ==> block[i] in cache && disk[L.LogBlock(i)] == cache[block[i]]
      ensures |trace| == |old(trace)| + n && old(trace) <= trace
      ensures AllRecoverTo(|old(trace)|, HomeOf(L, old(disk)))
    {
      hide RecoversTo, HomeOf, Distinct;
      var tail := 0;
      while tail < n
        invariant 0 <= tail <= n && Shape() && disk[L.logstart] == old(disk[L.logstart])
        invariant forall b :: L.Home(b) ==> disk[b] == old(disk)[b]
        invariant forall i :: 0 <= i < tail ==> block[i] in cache && disk[L.LogBlock(i)] == cache[block[i]]
        invariant |trace| == |old(trace)| + tail && old(trace) <= trace
        invariant AllRecoverTo(|old(trace)|, HomeOf(L, old(disk)))
      {
        assert block[tail] in block[..n];
        Bwrite(L.LogBlock(tail), cache[block[tail]]);
        EmptyLogRecovers(L, old(disk), disk);
        tail := tail + 1;
      }
    }

    /** Write the in-memory header over the header block. */
    method WriteHead()
      requires Shape()
      modifies this`disk, this`trace
      ensures disk == old(disk)[L.logstart := EncodeHeader(old(disk)[L.logstart], block[..n])]
      ensures |disk[L.logstart].words| == WORDS && trace == old(trace) + [disk]
    {
      var buf := disk[L.logstart].words[0 := n];
      var i := 0;
      while i < n
        invariant 0 <= i <= n
        invariant buf == [n] + block[..i] + disk[L.logstart].words[1 + i..]
      {
        buf := buf[1 + i := block[i]];
        i := i + 1;
      }
      Bwrite(L.logstart, Block(buf));
    }

    // The header on disk lists the transaction in memory, and the disk recovers to m.
    ghost predicate Committed(m: map<int, Block>)
      reads this, block
    {
      Shape() && HeaderBlocks(disk[L.logstart]) == block[..n] && Durable(L, disk) == m
    }

    // One turn of the install loop.
    method InstallOne(tail: nat, ghost m: map<int, Block>)
      requires Committed(m) && tail < n
      modifies this`disk, this`trace
      ensures Committed(m) && disk == old(disk)[block[tail] := old(disk)[L.LogBlock(tail)]]
      ensures L.Home(block[tail]) && trace == old(trace) + [disk]
    {
      assert block[tail] == block[..n][tail];
      InstallDisk(L, disk, block[tail], disk[L.LogBlock(tail)]);
      Bwrite(block[tail], disk[L.LogBlock(tail)]);
    }

    /** Copy log blocks home. What the disk recovers to does not change at any write. */
    method InstallTrans(ghost m: map<int, Block>)
      requires Committed(m)
      modifies this`disk, this`trace
      ensures Committed(m) && HomeOf(L, disk) == m
      ensures old(trace) <= trace && AllRecoverTo(|old(trace)|, m) && |trace| == |old(trace)| + n
    {
      hide Durable, HomeOf, HeaderCount, HeaderBlocks;
      ghost var es := block[..n];
      var tail := 0;
      while tail < n
        invariant 0 <= tail <= n && Committed(m)
        invariant disk == Installed(L, old(disk), es, tail)
        invariant forall b :: L.InLog(b) ==> disk[b] == old(disk)[b]
        invariant old(trace) <= trace && AllRecoverTo(|old(trace)|, m) && |trace| == |old(trace)| + tail
      {
        InstallOne(tail, m);
        tail := tail + 1;
      }
      InstalledHome(L, old(disk), es);
    }

    /** Erase the transaction: log.lh.n = 0 and write the header. Needs everything to be home. */
    method Erase(ghost m: map<int, Block>)
      requires Committed(m) && HomeOf(L, disk) == m
      modifies this`disk, this`trace, this`n, this`cache
      ensures Valid() && n == 0 && HomeOf(L, disk) == m && View() == m
      ensures trace == old(trace) + [disk] && Durable(L, disk) == m
    {
      n, cache := 0, map[];
      WriteHead();
      HeaderRoundTrip(old(disk)[L.logstart], block[..0]);
      DurableEmpty(L, disk);
      assert HomeOf(L, disk) == HomeOf(L, old(disk));
    }

    // write_log and the first write_head: up to the last write nothing has happened yet.
    method Record()
      requires Valid()
      modifies this`disk, this`trace
      ensures Committed(old(View()))
      ensures old(trace) <= trace && |trace| == |old(trace)| + n + 1
      ensures forall i :: |old(trace)| <= i < |trace| ==>
        RecoversTo(L, trace[i], if i < |old(trace)| + n then HomeOf(L, old(disk)) else old(View()))
    {
      hide Durable, HomeOf, EncodeHeader, HeaderCount, HeaderBlocks, Entries, Distinct;
      ghost var view, lh := View(), block[..n];
      Overlay(L, disk, lh, cache);
      WriteLog();
      CommitDisk(L, disk, lh, view);
      WriteHead();
    }

    // A commit of k blocks writes each twice and the header twice; an empty one writes nothing.
    static function Writes(k: nat): nat {
      if k == 0 then 0 else 2 * k + 2
    }

    /** Commit: whatever write the power fails after, recovery finds either the state before the
        transaction or the state after it, and the header write is the point where this switches. */
    method Commit()
      requires Valid()
      modifies this`disk, this`trace, this`n, this`cache
      ensures Valid() && n == 0
      ensures View() == old(View()) && HomeOf(L, disk) == old(View())
      ensures old(trace) <= trace && |trace| == |old(trace)| + Writes(old(n)) && (old(n) == 0 ==> disk == old(disk))
      ensures forall i :: |old(trace)| <= i < |trace| ==>
        RecoversTo(L, trace[i], if i < |old(trace)| + old(n) then HomeOf(L, old(disk)) else old(View()))
    {
      ghost var view := View();
      if n > 0 {
        Record();
        InstallTrans(view);
        Erase(view);
      } else {
        assert cache.Keys == {};
      }
    }

    /** Read the header from disk into memory. */
    method ReadHead()
      requires Shape()
      modifies this`n, block
      ensures Committed(Durable(L, disk)) && disk == old(disk) && n == HeaderCount(disk[L.logstart])
    {
      var buf := disk[L.logstart].words;
      n := HeaderCount(disk[L.logstart]);
      var i := 0;
      while i < n
        invariant 0 <= i <= n && n == HeaderCount(disk[L.logstart])
        invariant block[..i] == buf[1..1 + i]
      {
        block[i] := buf[1 + i];
        i := i + 1;
      }
    }

    /** Recovery leaves the disk it computes from the log, and every write on the way leaves a disk
        that recovers to the same state, so a crash during recovery only means starting over. */
    method RecoverFromLog()
      requires Shape()
      modifies this`disk, this`trace, this`n, this`cache, block
      ensures Valid() && n == 0 && HomeOf(L, disk) == Durable(L, old(disk))
      ensures old(trace) <= trace && AllRecoverTo(|old(trace)|, Durable(L, old(disk)))
      ensures |trace| == |old(trace)| + HeaderCount(old(disk)[L.logstart]) + 1
    {
      ghost var m := Durable(L, disk);
      ReadHead();
      InstallTrans(m);
      Erase(m);
    }

    // ---------- operations ----------

    // k operations can each still log MAXOPBLOCKS new blocks.
    predicate RoomFor(k: nat)
      reads this`n
    {
      n + k * MAXOPBLOCKS <= LOGSIZE
    }

    /** begin_op, up to where it would sleep. An operation is admitted exactly if no commit is running and
        there is room for it beside all outstanding ones; after that every one of them can log its
        MAXOPBLOCKS blocks without a panic, if the log area holds LOGSIZE copies. */
    method BeginOp() returns (sleeps: bool)
      requires Shape()
      modifies this`outstanding
      ensures Shape()
      ensures !sleeps <==> !committing && old(RoomFor(outstanding + 1))
      ensures outstanding == if sleeps then old(outstanding) else old(outstanding) + 1
      ensures !sleeps ==> RoomFor(outstanding)
      ensures !sleeps && L.nlog > LOGSIZE ==> n + outstanding * MAXOPBLOCKS <= L.Capacity()
    {
      sleeps := committing || n + (outstanding + 1) * MAXOPBLOCKS > LOGSIZE;
      if !sleeps { outstanding := outstanding + 1; }
    }

    // The search for an entry that can absorb the write.
    method FindEntry(b: int) returns (i: nat)
      requires n <= block.Length
      ensures i <= n && b !in block[..i] && (i < n ==> block[i] == b)
    {
      i := 0;
      while i < n && block[i] != b
        invariant 0 <= i <= n && b !in block[..i]
      {
        i := i + 1;
      }
    }

    /** log_write: pin the contents of block b and list b once. */
    method LogWrite(b: int, data: Block) returns (panics: bool)
      requires Valid() && L.Home(b)
      modifies this`n, this`cache, block
      ensures panics <==> old(n) >= LOGSIZE || old(n) >= L.nlog - 1 || outstanding < 1
      ensures panics ==> n == old(n) && cache == old(cache) && block[..] == old(block[..])
      ensures !panics ==> Valid() && View() == old(View())[b := data]
      ensures !panics ==> block[..n] == Logged(old(block[..n]), b)
    {
      panics := n >= LOGSIZE || n >= L.nlog - 1 || outstanding < 1;
      if !panics {
        hide HeaderCount, HeaderBlocks, Entries, Distinct, HomeOf;
        LoggedListed(L, block[..n], b);
        OverlayWrite(HomeOf(L, disk), cache, b, data);
        ghost var lh := block[..n];
        var i := FindEntry(b);
        assert i < n <==> b in lh;
        block[i] := b;
        if i == n { n := n + 1; }
        cache := cache[b := data];
        assert block[..n] == Logged(lh, b);
      }
    }

    /** end_op: the last operation out commits the whole group. */
    method EndOp() returns (panics: bool)
      requires Valid() && outstanding > 0
      modifies this`outstanding, this`committing, this`disk, this`trace, this`n, this`cache
      ensures panics <==> old(committing)
      ensures outstanding == old(outstanding) - 1 && committing == old(committing)
      ensures Valid() && View() == old(View()) && old(trace) <= trace
      ensures forall i :: |old(trace)| <= i < |trace| ==>
        RecoversTo(L, trace[i], if i < |old(trace)| + old(n) then HomeOf(L, old(disk)) else old(View()))
      ensures !panics && outstanding == 0 ==> n == 0 && HomeOf(L, disk) == old(View())
      ensures !panics && outstanding == 0 ==> |trace| == |old(trace)| + Writes(old(n)) && (old(n) == 0 ==> disk == old(disk))
      ensures panics || outstanding > 0 ==> n == old(n) && disk == old(disk) && trace == old(trace)
    {
      outstanding := outstanding - 1;
      panics := committing;
      if !panics && outstanding == 0 {
        committing := true;
        Commit();
        committing := false;
      }
    }
  }

  /** The entries after logging the blocks bs one by one. */
  function LoggedAll(lh: seq<int>, bs: seq<int>): (r: seq<int>)
    ensures |lh| <= |r| <= |lh| + |bs|
  {
    if bs == [] then lh else Logged(LoggedAll(lh, bs[..|bs| - 1]), bs[|bs| - 1])
  }

  lemma {:induction false} LoggedNew(lh: seq<int>, bs: seq<int>)
    requires Distinct(lh + bs)
    ensures LoggedAll(lh, bs) == lh + bs
  {
    if bs != [] {
      var n := |bs| - 1;
      var s, s' := lh + bs, lh + bs[..n];
      assert s' == s[..|s| - 1];
      LoggedNew(lh, bs[..n]);
      assert s[|s| - 1] == bs[n];
      assert bs == bs[..n] + [bs[n]];
    }
  }

  /** Any list of blocks that fits behind the entries is logged without a panic. */
  method LogAll(log: Log, bs: seq<int>, data: Block) returns (panics: bool)
    requires log.Valid() && log.outstanding >= 1 && log.n + |bs| <= log.L.Capacity()
    requires forall b :: b in bs ==> log.L.Home(b)
    modifies log`n, log`cache, log.block
    ensures !panics && log.Valid() && log.block[..log.n] == LoggedAll(old(log.block[..log.n]), bs)
  {
    ghost var lh := log.block[..log.n];
    hide Entries, Distinct, Logged;
    var i := 0;
    panics := false;
    while i < |bs|
      invariant 0 <= i <= |bs| && !panics && log.Valid() && log.block[..log.n] == LoggedAll(lh, bs[..i])
    {
      assert bs[..i + 1][..i] == bs[..i];
      panics := log.LogWrite(bs[i], data);
      i := i + 1;
    }
    assert bs[..i] == bs;
  }

  // The blocks 100, 101, ...
  function Blocks(k: nat): (bs: seq<int>)
    ensures |bs| == k && Distinct(bs) && forall i :: 0 <= i < k ==> bs[i] == 100 + i
  {
    seq(k, i requires 0 <= i => 100 + i)
  }

  // A booted log with three operations admitted, on an empty disk with a log area of nlog blocks.
  method ThreeAdmitted(nlog: nat) returns (log: Log, sleeps: bool)
    requires 1 <= nlog <= 90
    ensures fresh(log) && fresh(log.block) && !sleeps && log.Valid() && log.outstanding == 3 && log.n == 0
    ensures log.L == Layout(1000, 2, nlog)
  {
    var zero := Block(seq(WORDS, _ => 0));
    log := new Log(Layout(1000, 2, nlog), seq(1000, _ => zero));
    log.RecoverFromLog();
    var s1 := log.BeginOp();
    var s2 := log.BeginOp();
    var s3 := log.BeginOp();
    sleeps := s1 || s2 || s3;
  }

  /** The image that mkfs writes has a log area of LOGSIZE blocks, one of which is the header. There,
      three operations of at most MAXOPBLOCKS blocks each are admitted together, and the third runs
      into the panic with its tenth block. */
  method MkfsLogTooSmall() returns (sleeps: bool, early: bool, panics: bool)
    ensures !sleeps && !early && panics
  {
    var zero := Block([]);
    var log;
    log, sleeps := ThreeAdmitted(LOGSIZE);
    LoggedNew([], Blocks(3 * MAXOPBLOCKS - 1));
    early := LogAll(log, Blocks(3 * MAXOPBLOCKS - 1), zero);
    panics := log.LogWrite(200, zero);
  }

  /** However large the log area, an operation that has logged its MAXOPBLOCKS blocks panics when it
      writes one of them again in a full group: the size test comes before the absorption. */
  method AbsorbedWritePanics() returns (sleeps: bool, early: bool, panics: bool)
    ensures !sleeps && !early && panics
  {
    var zero := Block([]);
    var log;
    log, sleeps := ThreeAdmitted(40);
    LoggedNew([], Blocks(3 * MAXOPBLOCKS));
    early := LogAll(log, Blocks(3 * MAXOPBLOCKS), zero);
    panics := log.LogWrite(100, zero);
  }
}
