/** The invariant of the cache and the log, and its preservation by every step. */
module BufferLogInvariant {
  import opened LogFormat
  import opened BufferLog
  import opened Wrappers

  // ---------- reservations ----------

  ghost function AnyOp(ops: map<nat, nat>): (k: nat)
    requires |ops| > 0
    ensures k in ops
  {
    var k :| k in ops; k
  }

  /** The log space that outstanding operations have reserved and not used. */
  ghost function Reserved(ops: map<nat, nat>): nat
    decreases |ops|
  {
    if |ops| == 0 then 0 else
      var k := AnyOp(ops);
      assert |ops - {k}| < |ops| by { MapMinus(ops, k); }
      ops[k] + Reserved(ops - {k})
  }

  lemma MapMinus(m: map<nat, nat>, k: nat)
    requires k in m
    ensures |m - {k}| == |m| - 1
  {
    assert (m - {k}).Keys == m.Keys - {k};
    assert |m.Keys - {k}| == |m.Keys| - 1;
  }

  lemma {:induction false} ReservedSplit(ops: map<nat, nat>, k: nat)
    requires k in ops
    ensures Reserved(ops) == ops[k] + Reserved(ops - {k})
    decreases |ops|
  {
    var j := AnyOp(ops);
    MapMinus(ops, j);
    if j != k {
      ReservedSplit(ops - {j}, k);
      MapMinus(ops, k);
      ReservedSplit(ops - {k}, j);
      assert (ops - {j}) - {k} == (ops - {k}) - {j};
    }
  }

  lemma {:induction false} ReservedBound(ops: map<nat, nat>)
    requires forall k :: k in ops ==> ops[k] <= MAXOPBLOCKS
    ensures Reserved(ops) <= |ops| * MAXOPBLOCKS
    decreases |ops|
  {
    if |ops| > 0 {
      var k := AnyOp(ops);
      MapMinus(ops, k);
      ReservedBound(ops - {k});
    }
  }

  lemma ReservedEmpty(ops: map<nat, nat>)
    ensures |ops| == 0 <==> ops == map[]
    ensures |ops| == 0 ==> Reserved(ops) == 0
  {
  }

  // The test in begin_op leaves room for MAXOPBLOCKS more blocks on top of what is promised.
  lemma ReserveMore(ops: map<nat, nat>, op: nat, n: nat)
    requires op !in ops && n + (|ops| + 1) * MAXOPBLOCKS <= LOGSIZE
    requires forall k :: k in ops ==> ops[k] <= MAXOPBLOCKS
    ensures n + Reserved(ops[op := MAXOPBLOCKS]) <= LOGSIZE
  {
    ReservedBound(ops);
    ReservedSplit(ops[op := MAXOPBLOCKS], op);
    assert ops[op := MAXOPBLOCKS] - {op} == ops;
  }

  // ---------- the invariant ----------

  // Blocks that are logged in memory and not yet copied home.
  function Pending(s: Sys): seq<int> {
    match s.commit.pc
    case Idle => s.lh
    case WriteLog => s.lh
    case WriteHead => s.lh
    case Install => if s.commit.tail <= |s.lh| then s.lh[s.commit.tail..] else []
    case _ => []
  }

  predicate OwnsLock(p: Phase) {
    p == Locked || p == Ready || p == Modified
  }

  ghost function Users(s: Sys, i: nat): set<nat> {
    set k | k in s.sessions && s.sessions[k].buf == i
  }

  // The buffer is the one the commit code has filled and not yet written.
  predicate IsCur(s: Sys, b: Buf) {
    s.commit.cur.Some? && b.lock == s.commit.cur
  }

  // The buffer holds changes that have not reached log_write.
  predicate Unlogged(s: Sys, b: Buf) {
    b.lock.Some? && b.lock.value in s.sessions && s.sessions[b.lock.value].phase == Modified
  }

  /** No two buffers cache the same block of a device other than 0. */
  ghost predicate KeysInv(s: Sys) {
    && (forall i, j :: 0 <= i < j < |s.bufs| && s.bufs[i].dev == DEV ==> !HasKey(s.bufs[j], s.bufs[i].blockno))
    && (forall i :: 0 <= i < |s.bufs| ==> s.bufs[i].dev == 0 || s.bufs[i].dev == DEV)
  }

  ghost predicate SessionInv(L: Layout, s: Sys, k: nat)
    requires k in s.sessions
  {
    var x := s.sessions[k];
    && x.buf < |s.bufs| && HasKey(s.bufs[x.buf], x.blockno) && 0 <= x.blockno < L.size
    && (x.phase == Ready || x.phase == Modified ==> s.bufs[x.buf].valid)
    && (OwnsLock(x.phase) ==> s.bufs[x.buf].lock == Some(k))
    && (x.role.Op? ==> x.role.op in s.ops)
    && (x.phase == Modified ==> x.role.Op?)
    && (x.role != Logger ==> L.Home(x.blockno) && !s.recovering)
    && (x.role == Logger ==> s.commit.pc != Idle)
  }

  ghost predicate SessionsInv(L: Layout, s: Sys) {
    forall k :: k in s.sessions ==> SessionInv(L, s, k)
  }

  ghost predicate LockInv(s: Sys, i: nat)
    requires i < |s.bufs|
  {
    s.bufs[i].lock.Some? ==>
      var k := s.bufs[i].lock.value;
      k in s.sessions && s.sessions[k].buf == i && OwnsLock(s.sessions[k].phase)
  }

  ghost predicate LocksInv(s: Sys) {
    forall i :: 0 <= i < |s.bufs| ==> LockInv(s, i)
  }

  ghost predicate RefsInv(s: Sys) {
    forall i :: 0 <= i < |s.bufs| ==> s.bufs[i].refcnt == |Users(s, i)|
  }

  ghost predicate CurSession(L: Layout, s: Sys) {
    s.commit.cur.Some? ==>
      && Writing(s.commit.pc) && Copying(s) && LoggerReady(s, s.commit.cur.value, Target(L, s))
  }

  /** The reservation protocol and the shape of the in-memory header. */
  ghost predicate LogInv(L: Layout, s: Sys) {
    && Entries(L, s.lh) && Distinct(s.lh)
    && (s.commit.pc != Idle ==> s.ops == map[])
    && (forall k :: k in s.ops ==> s.ops[k] <= MAXOPBLOCKS)
    && |s.lh| + Reserved(s.ops) <= LOGSIZE
    && (s.recovering ==> (s.commit.pc == ReadHead || s.commit.pc == Install || s.commit.pc == ClearHead || s.commit.pc == Closing))
    && (s.commit.pc == ReadHead ==> s.recovering)
    && ((s.commit.pc == ReadHead || s.commit.pc == ClearHead || s.commit.pc == Closing) ==> s.lh == [])
    && (s.commit.pc == Idle && s.ops == map[] ==> s.lh == [])
    && s.commit.tail <= |s.lh|
  }

  // Dirty means pinned: logged, in memory, and not yet installed.
  ghost predicate DirtyOk(s: Sys, b: Buf) {
    b.dirty ==> b.dev == DEV && b.valid && b.blockno in Pending(s) && !s.recovering
  }

  ghost predicate Pinned(s: Sys, blockno: int) {
    exists i :: 0 <= i < |s.bufs| && HasKey(s.bufs[i], blockno) && s.bufs[i].dirty
  }

  /** Dirty buffers are exactly the pinned copies of the pending blocks. */
  ghost predicate DirtyInv(s: Sys) {
    && (forall i :: 0 <= i < |s.bufs| ==> DirtyOk(s, s.bufs[i]))
    && (!s.recovering ==> forall b :: b in Pending(s) ==> Pinned(s, b))
  }

  ghost predicate ViewKeys(L: Layout, s: Sys) {
    s.view.Keys == set b: int | 0 <= b < L.size && L.Home(b)
  }

  // What a valid home buffer holds: before recovery has installed a block, the old contents.
  ghost predicate HomeData(L: Layout, s: Sys, b: Buf) {
    b.dev == DEV && b.valid && L.Home(b.blockno) && !Unlogged(s, b) ==>
      if s.recovering && b.blockno in Pending(s) && !IsCur(s, b)
      then b.blockno < |s.disk| && b.data == s.disk[b.blockno]
      else b.blockno in s.view && b.data == s.view[b.blockno]
  }

  // A valid log buffer equals the disk unless it is about to be written.
  ghost predicate LogData(L: Layout, s: Sys, b: Buf) {
    b.dev == DEV && b.valid && L.InLog(b.blockno) && !IsCur(s, b) ==>
      0 <= b.blockno < |s.disk| && b.data == s.disk[b.blockno]
  }

  ghost predicate BufsInv(L: Layout, s: Sys) {
    && (forall i :: 0 <= i < |s.bufs| ==> HomeData(L, s, s.bufs[i]))
    && (forall i :: 0 <= i < |s.bufs| ==> LogData(L, s, s.bufs[i]))
    && (s.commit.pc == ReadHead ==>
          forall i :: 0 <= i < |s.bufs| && s.bufs[i].dev == DEV ==> s.bufs[i].blockno == L.logstart)
  }

  // The i-th log copy holds the current contents of the block it stands for.
  ghost predicate LogCopy(L: Layout, s: Sys, i: nat) {
    i < |s.lh| && L.LogBlock(i) < |s.disk| && s.lh[i] in s.view && s.disk[L.LogBlock(i)] == s.view[s.lh[i]]
  }

  ghost predicate LogCopies(L: Layout, s: Sys, n: nat) {
    forall i: nat :: i < n ==> LogCopy(L, s, i)
  }

  lemma SameCopies(L: Layout, s: Sys, s': Sys, n: nat)
    requires s'.disk == s.disk && s'.lh == s.lh && s'.view == s.view
    ensures LogCopies(L, s, n) ==> LogCopies(L, s', n)
  {
    forall i: nat | i < n && LogCopy(L, s, i) ensures LogCopy(L, s', i) {
    }
  }

  ghost predicate DiskInv(L: Layout, s: Sys) {
    && GoodDisk(L, s.disk) && ViewKeys(L, s)
    && ((s.commit.pc == Idle || s.commit.pc == WriteLog || s.commit.pc == WriteHead || s.commit.pc == Closing) ==> HeaderCount(s.disk[L.logstart]) == 0)
    && (s.commit.pc == WriteLog ==> LogCopies(L, s, s.commit.tail))
    && (s.commit.pc == WriteHead || s.commit.pc == Install ==> LogCopies(L, s, |s.lh|))
    && (s.commit.pc == Install ==> HeaderBlocks(s.disk[L.logstart]) == s.lh)
    && ((s.commit.pc == ReadHead || s.commit.pc == Install || s.commit.pc == ClearHead) ==> Durable(L, s.disk) == s.view)
    && (s.commit.pc != ReadHead ==>
          forall b: int :: L.Home(b) && b !in Pending(s) ==> s.disk[b] == s.view[b])
  }

  // What the filled buffer holds.
  ghost predicate CurData(L: Layout, s: Sys, data: Block)
    requires Copying(s)
  {
    match s.commit.pc
    case WriteLog => s.lh[s.commit.tail] in s.view && data == s.view[s.lh[s.commit.tail]]
    case Install => s.lh[s.commit.tail] in s.view && data == s.view[s.lh[s.commit.tail]]
    case _ => L.logstart < |s.disk| && data == EncodeHeader(s.disk[L.logstart], s.lh)
  }

  ghost predicate CurInv(L: Layout, s: Sys) {
    && CurSession(L, s)
    && (s.commit.cur.Some? ==> CurData(L, s, BufOf(s, s.commit.cur.value).data))
  }

  ghost predicate Inv(L: Layout, s: Sys) {
    && KeysInv(s) && SessionsInv(L, s) && LocksInv(s) && RefsInv(s) && LogInv(L, s) && DirtyInv(s)
    && DiskInv(L, s) && BufsInv(L, s) && CurInv(L, s)
  }

  // ---------- steps that touch one buffer and one session ----------

  // s' differs from s in buffer i and in session k, which uses buffer i.
  ghost predicate Local(s: Sys, s': Sys, i: nat, k: nat) {
    && i < |s.bufs| && |s'.bufs| == |s.bufs| && s'.bufs == s.bufs[i := s'.bufs[i]]
    && s' == s.(bufs := s'.bufs, sessions := s'.sessions)
    && (forall m :: m != k ==> (m in s.sessions <==> m in s'.sessions))
    && (forall m :: m != k && m in s.sessions ==> s'.sessions[m] == s.sessions[m])
    && (k in s.sessions ==> s.sessions[k].buf == i)
    && (k in s'.sessions ==> s'.sessions[k].buf == i)
  }

  lemma LocalKeys(s: Sys, s': Sys, i: nat, k: nat)
    requires KeysInv(s) && Local(s, s', i, k)
    requires s'.bufs[i].dev == DEV
    requires forall j :: 0 <= j < |s.bufs| && j != i ==> !HasKey(s.bufs[j], s'.bufs[i].blockno)
    ensures KeysInv(s')
  {
  }

  lemma LocalSessions(L: Layout, s: Sys, s': Sys, i: nat, k: nat)
    requires Local(s, s', i, k) && SessionsInv(L, s) && LockInv(s, i)
    requires k in s'.sessions ==> SessionInv(L, s', k)
    requires var b, b' := s.bufs[i], s'.bufs[i];
      && (Users(s, i) <= {k} || (b'.dev == b.dev && b'.blockno == b.blockno && (b.valid ==> b'.valid)))
      && (b'.lock == b.lock || b.lock == None || b.lock == Some(k))
    ensures SessionsInv(L, s')
  {
    forall m | m in s'.sessions && m != k ensures SessionInv(L, s', m) {
      assert SessionInv(L, s, m);
      if s.sessions[m].buf == i { assert m in Users(s, i); }
    }
  }

  lemma LocalLocks(s: Sys, s': Sys, i: nat, k: nat)
    requires LocksInv(s) && Local(s, s', i, k) && LockInv(s', i)
    ensures LocksInv(s')
  {
    forall j | 0 <= j < |s'.bufs| && j != i ensures LockInv(s', j) {
      assert LockInv(s, j);
    }
  }

  lemma LocalRefs(s: Sys, s': Sys, i: nat, k: nat)
    requires RefsInv(s) && Local(s, s', i, k) && s'.bufs[i].refcnt == |Users(s', i)|
    ensures RefsInv(s')
  {
    forall j | 0 <= j < |s'.bufs| && j != i ensures s'.bufs[j].refcnt == |Users(s', j)| {
      assert Users(s', j) == Users(s, j);
    }
  }

  lemma LocalDirty(s: Sys, s': Sys, i: nat, k: nat)
    requires DirtyInv(s) && Local(s, s', i, k) && DirtyOk(s', s'.bufs[i])
    requires s.bufs[i].dirty ==> s'.bufs[i].dirty && HasKey(s'.bufs[i], s.bufs[i].blockno)
    ensures DirtyInv(s')
  {
    assert Pending(s') == Pending(s);
    forall j | 0 <= j < |s'.bufs| ensures DirtyOk(s', s'.bufs[j]) {
      assert j != i ==> DirtyOk(s, s.bufs[j]);
    }
    if !s.recovering {
      forall b | b in Pending(s') ensures Pinned(s', b) {
        assert Pinned(s, b);
        var j :| 0 <= j < |s.bufs| && HasKey(s.bufs[j], b) && s.bufs[j].dirty;
        assert HasKey(s'.bufs[j], b) && s'.bufs[j].dirty;
      }
    }
  }

  lemma LocalBufs(L: Layout, s: Sys, s': Sys, i: nat, k: nat)
    requires BufsInv(L, s) && LocksInv(s) && Local(s, s', i, k)
    requires HomeData(L, s', s'.bufs[i]) && LogData(L, s', s'.bufs[i])
    requires s.commit.pc == ReadHead ==> s'.bufs[i].blockno == L.logstart
    ensures BufsInv(L, s')
  {
    assert Pending(s') == Pending(s);
    forall j | 0 <= j < |s'.bufs| && j != i ensures HomeData(L, s', s'.bufs[j]) && LogData(L, s', s'.bufs[j]) {
      assert HomeData(L, s, s.bufs[j]) && LogData(L, s, s.bufs[j]) && LockInv(s, j);
      assert Unlogged(s', s'.bufs[j]) == Unlogged(s, s.bufs[j]);
    }
  }

  lemma LocalRest(L: Layout, s: Sys, s': Sys, i: nat, k: nat)
    requires LogInv(L, s) && DiskInv(L, s) && CurInv(L, s) && Local(s, s', i, k)
    requires s.commit.cur != Some(k)
    requires SessionsInv(L, s)
    requires s'.bufs[i].data == s.bufs[i].data || s.bufs[i].lock == None || s.bufs[i].lock == Some(k)
    ensures LogInv(L, s') && DiskInv(L, s') && CurInv(L, s')
  {
    hide Reserved, Durable, HeaderBlocks, HeaderCount, Entries, Distinct;
    assert Pending(s') == Pending(s);
    SameCopies(L, s, s', s.commit.tail);
    SameCopies(L, s, s', |s.lh|);
  }

  // What the new buffer i and the new session k have to satisfy.
  ghost predicate LocalOk(L: Layout, s: Sys, s': Sys, i: nat, k: nat)
    requires Local(s, s', i, k)
  {
    var b, b' := s.bufs[i], s'.bufs[i];
    && s.commit.cur != Some(k)
    && b'.dev == DEV && (forall j :: 0 <= j < |s.bufs| && j != i ==> !HasKey(s.bufs[j], b'.blockno))
    && (Users(s, i) <= {k} || (b'.dev == b.dev && b'.blockno == b.blockno && (b.valid ==> b'.valid)))
    && (b'.lock == b.lock || b.lock == None || b.lock == Some(k))
    && (k in s'.sessions ==> SessionInv(L, s', k))
    && LockInv(s', i)
    && b'.refcnt == |Users(s', i)|
    && DirtyOk(s', b')
    && (b.dirty ==> b'.dirty && HasKey(b', b.blockno))
    && HomeData(L, s', b') && LogData(L, s', b')
    && (s.commit.pc == ReadHead ==> b'.blockno == L.logstart)
    && (b'.data == b.data || b.lock == None || b.lock == Some(k))
  }

  lemma LocalInv(L: Layout, s: Sys, s': Sys, i: nat, k: nat)
    requires Inv(L, s) && Local(s, s', i, k) && LocalOk(L, s, s', i, k)
    ensures Inv(L, s')
  {
    assert LockInv(s, i);
    LocalKeys(s, s', i, k);
    LocalSessions(L, s, s', i, k);
    LocalLocks(s, s', i, k);
    LocalRefs(s, s', i, k);
    LocalDirty(s, s', i, k);
    LocalBufs(L, s, s', i, k);
    LocalRest(L, s, s', i, k);
  }

  // What the invariant says about one buffer.
  ghost predicate BufFacts(L: Layout, s: Sys, i: nat) {
    && i < |s.bufs|
    && LockInv(s, i) && DirtyOk(s, s.bufs[i]) && HomeData(L, s, s.bufs[i]) && LogData(L, s, s.bufs[i])
    && (s.commit.pc == ReadHead && s.bufs[i].dev == DEV ==> s.bufs[i].blockno == L.logstart)
    && s.bufs[i].refcnt == |Users(s, i)|
    && (s.bufs[i].lock.Some? ==> s.bufs[i].lock.value in Users(s, i))
    && (s.bufs[i].dev == DEV ==> forall j :: 0 <= j < |s.bufs| && j != i ==> !HasKey(s.bufs[j], s.bufs[i].blockno))
  }

  ghost predicate HeldBy(L: Layout, s: Sys, k: nat) {
    k in s.sessions && SessionInv(L, s, k) && BufFacts(L, s, s.sessions[k].buf)
    && (s.commit.cur == Some(k) ==> s.sessions[k].phase == Ready)
  }

  lemma BufFactsHold(L: Layout, s: Sys, i: nat)
    requires Inv(L, s) && i < |s.bufs|
    ensures BufFacts(L, s, i)
  {
    assert LockInv(s, i);
  }

  lemma HeldByHolds(L: Layout, s: Sys, k: nat)
    requires Inv(L, s) && k in s.sessions
    ensures HeldBy(L, s, k)
  {
    assert SessionInv(L, s, k);
    BufFactsHold(L, s, s.sessions[k].buf);
  }

  lemma BgetInv(L: Layout, s: Sys, sid: nat, role: Role, b: int, i: nat)
    requires Inv(L, s) && CanBget(L, s, sid, role, b, i)
    ensures Inv(L, DoBget(s, sid, role, b, i))
  {
    BufFactsHold(L, s, i);
    BgetOk(L, s, sid, role, b, i);
    LocalInv(L, s, DoBget(s, sid, role, b, i), i, sid);
  }

  lemma BgetOk(L: Layout, s: Sys, sid: nat, role: Role, b: int, i: nat)
    requires BufFacts(L, s, i) && CanBget(L, s, sid, role, b, i)
    requires s.commit.cur.Some? ==> s.commit.cur.value in s.sessions
    requires s.commit.pc == ReadHead ==> s.recovering
    ensures Local(s, DoBget(s, sid, role, b, i), i, sid) && LocalOk(L, s, DoBget(s, sid, role, b, i), i, sid)
  {
    if HasKey(s.bufs[i], b) { BgetHit(L, s, sid, role, b, i); } else { BgetRecycle(L, s, sid, role, b, i); }
  }

  lemma BgetHit(L: Layout, s: Sys, sid: nat, role: Role, b: int, i: nat)
    requires BufFacts(L, s, i) && CanBget(L, s, sid, role, b, i) && HasKey(s.bufs[i], b)
    requires s.commit.cur.Some? ==> s.commit.cur.value in s.sessions
    ensures Local(s, DoBget(s, sid, role, b, i), i, sid) && LocalOk(L, s, DoBget(s, sid, role, b, i), i, sid)
  {
    var s' := DoBget(s, sid, role, b, i);
    assert Users(s', i) == Users(s, i) + {sid} && Pending(s') == Pending(s);
  }

  lemma BgetRecycle(L: Layout, s: Sys, sid: nat, role: Role, b: int, i: nat)
    requires BufFacts(L, s, i) && CanBget(L, s, sid, role, b, i) && !HasKey(s.bufs[i], b)
    requires s.commit.cur.Some? ==> s.commit.cur.value in s.sessions
    requires s.commit.pc == ReadHead ==> s.recovering
    ensures Local(s, DoBget(s, sid, role, b, i), i, sid) && LocalOk(L, s, DoBget(s, sid, role, b, i), i, sid)
  {
    var s' := DoBget(s, sid, role, b, i);
    assert |Users(s, i)| == 0;
    assert Users(s', i) == {sid};
    assert s.bufs[i].lock == None;
  }

  lemma AcquireInv(L: Layout, s: Sys, k: nat)
    requires Inv(L, s) && CanAcquire(s, k)
    ensures Inv(L, DoAcquire(s, k))
  {
    HeldByHolds(L, s, k);
    AcquireOk(L, s, k);
    LocalInv(L, s, DoAcquire(s, k), s.sessions[k].buf, k);
  }

  lemma AcquireOk(L: Layout, s: Sys, k: nat)
    requires HeldBy(L, s, k) && CanAcquire(s, k)
    ensures Local(s, DoAcquire(s, k), s.sessions[k].buf, k) && LocalOk(L, s, DoAcquire(s, k), s.sessions[k].buf, k)
  {
    var s', i := DoAcquire(s, k), s.sessions[k].buf;
    assert Users(s', i) == Users(s, i) && Pending(s') == Pending(s);
  }

  lemma BreadInv(L: Layout, s: Sys, k: nat)
    requires Inv(L, s) && CanBread(s, k)
    ensures Inv(L, DoBread(s, k))
  {
    HeldByHolds(L, s, k);
    BreadCurrent(L, s, k);
    BreadOk(L, s, k);
    LocalInv(L, s, DoBread(s, k), s.sessions[k].buf, k);
  }

  ghost predicate ReadsCurrent(L: Layout, s: Sys, b: Buf) {
    (!b.valid && L.Home(b.blockno) && s.commit.pc != ReadHead && !(s.recovering && b.blockno in Pending(s))) ==>
      b.blockno in s.view && b.blockno < |s.disk| && s.disk[b.blockno] == s.view[b.blockno]
  }

  // A block read from disk is current: a block with newer contents is pinned in the cache.
  lemma BreadCurrent(L: Layout, s: Sys, k: nat)
    requires DirtyInv(s) && DiskInv(L, s) && LogInv(L, s) && HeldBy(L, s, k) && CanBread(s, k)
    ensures ReadsCurrent(L, s, BufOf(s, k))
  {
    assert BufOf(s, k).blockno in Pending(s) && !s.recovering ==> Pinned(s, BufOf(s, k).blockno);
  }

  lemma BreadOk(L: Layout, s: Sys, k: nat)
    requires L.Valid() && HeldBy(L, s, k) && CanBread(s, k) && ViewKeys(L, s)
    requires ReadsCurrent(L, s, BufOf(s, k))
    ensures Local(s, DoBread(s, k), s.sessions[k].buf, k) && LocalOk(L, s, DoBread(s, k), s.sessions[k].buf, k)
  {
    var s', i := DoBread(s, k), s.sessions[k].buf;
    assert Users(s', i) == Users(s, i) && Pending(s') == Pending(s);
  }

  lemma ModifyInv(L: Layout, s: Sys, k: nat, data: Block)
    requires Inv(L, s) && CanModify(s, k)
    ensures Inv(L, DoModify(s, k, data))
  {
    HeldByHolds(L, s, k);
    ModifyOk(L, s, k, data);
    LocalInv(L, s, DoModify(s, k, data), s.sessions[k].buf, k);
  }

  lemma ModifyOk(L: Layout, s: Sys, k: nat, data: Block)
    requires HeldBy(L, s, k) && CanModify(s, k) && CurSession(L, s)
    ensures Local(s, DoModify(s, k, data), s.sessions[k].buf, k) && LocalOk(L, s, DoModify(s, k, data), s.sessions[k].buf, k)
  {
    var s', i := DoModify(s, k, data), s.sessions[k].buf;
    assert Users(s', i) == Users(s, i) && Pending(s') == Pending(s);
  }

  lemma ReleaseInv(L: Layout, s: Sys, k: nat)
    requires Inv(L, s) && CanRelease(s, k)
    ensures Inv(L, DoRelease(s, k))
  {
    HeldByHolds(L, s, k);
    ReleaseOk(L, s, k);
    LocalInv(L, s, DoRelease(s, k), s.sessions[k].buf, k);
  }

  lemma ReleaseOk(L: Layout, s: Sys, k: nat)
    requires HeldBy(L, s, k) && CanRelease(s, k)
    ensures Local(s, DoRelease(s, k), s.sessions[k].buf, k) && LocalOk(L, s, DoRelease(s, k), s.sessions[k].buf, k)
  {
    var s', i := DoRelease(s, k), s.sessions[k].buf;
    assert Users(s', i) == Users(s, i) && Pending(s') == Pending(s);
  }

  lemma UnrefInv(L: Layout, s: Sys, k: nat)
    requires Inv(L, s) && CanUnref(s, k)
    ensures Inv(L, DoUnref(s, k))
  {
    HeldByHolds(L, s, k);
    UnrefOk(L, s, k);
    LocalInv(L, s, DoUnref(s, k), s.sessions[k].buf, k);
  }

  lemma UnrefOk(L: Layout, s: Sys, k: nat)
    requires HeldBy(L, s, k) && CanUnref(s, k)
    ensures Local(s, DoUnref(s, k), s.sessions[k].buf, k) && LocalOk(L, s, DoUnref(s, k), s.sessions[k].buf, k)
  {
    var s', i := DoUnref(s, k), s.sessions[k].buf;
    assert Users(s', i) == Users(s, i) - {k} && k in Users(s, i) && Pending(s') == Pending(s);
  }

  // ---------- steps that change only the control state ----------

  ghost predicate Control(s: Sys, s': Sys) {
    && s' == s.(ops := s'.ops, lh := s'.lh, commit := s'.commit, recovering := s'.recovering)
    && Pending(s') == Pending(s) && s.commit.cur == None && s'.commit.cur == None
    && s.commit.pc != ReadHead && s'.commit.pc != ReadHead
    && (s'.recovering == s.recovering || (!s'.recovering && Pending(s) == []))
    && (forall k :: k in s.sessions && s.sessions[k].role.Op? ==> s.sessions[k].role.op in s'.ops)
    && (forall k :: k in s.sessions && s.sessions[k].role == Logger ==> s'.commit.pc != Idle)
  }

  lemma ControlInv(L: Layout, s: Sys, s': Sys)
    requires Inv(L, s) && Control(s, s') && LogInv(L, s') && DiskInv(L, s')
    ensures Inv(L, s')
  {
    ControlSessions(L, s, s');
    ControlBufs(L, s, s');
    assert forall i :: 0 <= i < |s.bufs| ==> LockInv(s, i) ==> LockInv(s', i);
    assert forall i :: 0 <= i < |s.bufs| ==> Users(s', i) == Users(s, i);
  }

  lemma ControlSessions(L: Layout, s: Sys, s': Sys)
    requires SessionsInv(L, s) && Control(s, s')
    ensures SessionsInv(L, s')
  {
    forall k | k in s'.sessions ensures SessionInv(L, s', k) {
      assert SessionInv(L, s, k);
    }
  }

  lemma ControlBufs(L: Layout, s: Sys, s': Sys)
    requires BufsInv(L, s) && DirtyInv(s) && Control(s, s')
    ensures BufsInv(L, s') && DirtyInv(s')
  {
    forall i | 0 <= i < |s'.bufs|
      ensures HomeData(L, s', s'.bufs[i]) && LogData(L, s', s'.bufs[i]) && DirtyOk(s', s'.bufs[i])
    {
      assert HomeData(L, s, s.bufs[i]) && LogData(L, s, s.bufs[i]) && DirtyOk(s, s.bufs[i]);
    }
    forall b | b in Pending(s') && !s'.recovering ensures Pinned(s', b) {
      assert Pinned(s, b);
    }
  }

  lemma BeginInv(L: Layout, s: Sys, op: nat)
    requires Inv(L, s) && CanBegin(s, op)
    ensures Inv(L, DoBegin(s, op))
  {
    BeginLog(L, s, op);
    ControlInv(L, s, DoBegin(s, op));
  }

  lemma BeginLog(L: Layout, s: Sys, op: nat)
    requires LogInv(L, s) && CurSession(L, s) && DiskInv(L, s) && SessionsInv(L, s) && CanBegin(s, op)
    ensures LogInv(L, DoBegin(s, op)) && DiskInv(L, DoBegin(s, op)) && Control(s, DoBegin(s, op))
  {
    hide Reserved, Durable, HeaderBlocks, HeaderCount, Entries, Distinct, HasKey;
    ReserveMore(s.ops, op, |s.lh|);
    assert forall k :: k in s.sessions ==> SessionInv(L, s, k);
  }

  lemma EndInv(L: Layout, s: Sys, op: nat)
    requires Inv(L, s) && CanEnd(s, op)
    ensures Inv(L, DoEnd(s, op))
  {
    EndLog(L, s, op);
    ControlInv(L, s, DoEnd(s, op));
  }

  lemma EndLog(L: Layout, s: Sys, op: nat)
    requires LogInv(L, s) && CurSession(L, s) && DiskInv(L, s) && SessionsInv(L, s) && CanEnd(s, op)
    ensures LogInv(L, DoEnd(s, op)) && DiskInv(L, DoEnd(s, op)) && Control(s, DoEnd(s, op))
  {
    EndDisk(L, s, op);
    EndKept(L, s, op);
    EndControl(L, s, op);
  }

  lemma EndKept(L: Layout, s: Sys, op: nat)
    requires LogInv(L, s) && CanEnd(s, op)
    ensures LogInv(L, DoEnd(s, op))
  {
    hide Reserved, Entries, Distinct, HasKey;
    ReservedSplit(s.ops, op);
    ReservedEmpty(s.ops - {op});
  }

  lemma EndControl(L: Layout, s: Sys, op: nat)
    requires LogInv(L, s) && CurSession(L, s) && SessionsInv(L, s) && CanEnd(s, op)
    ensures Control(s, DoEnd(s, op))
  {
    hide Reserved, Entries, Distinct, HasKey;
    assert forall k :: k in s.sessions ==> SessionInv(L, s, k);
  }

  lemma EndDisk(L: Layout, s: Sys, op: nat)
    requires LogInv(L, s) && CurSession(L, s) && DiskInv(L, s) && CanEnd(s, op)
    ensures DiskInv(L, DoEnd(s, op))
  {
    hide Reserved, Durable, HeaderBlocks, HeaderCount, Entries, Distinct, HasKey;
  }

  lemma AdvanceInv(L: Layout, s: Sys)
    requires Inv(L, s) && CanAdvance(s)
    ensures Inv(L, DoAdvance(s))
  {
    AdvanceLog(L, s);
    AdvanceDisk(L, s);
    ControlInv(L, s, DoAdvance(s));
  }

  lemma AdvanceLog(L: Layout, s: Sys)
    requires LogInv(L, s) && SessionsInv(L, s) && CanAdvance(s)
    ensures LogInv(L, DoAdvance(s)) && Control(s, DoAdvance(s))
  {
    hide Reserved, HasKey;
    assert s.commit.tail <= |s.lh|;
    assert forall k :: k in s.sessions ==> SessionInv(L, s, k);
  }

  lemma AdvanceDisk(L: Layout, s: Sys)
    requires LogInv(L, s) && DiskInv(L, s) && CanAdvance(s)
    ensures DiskInv(L, DoAdvance(s))
  {
    hide Reserved, Durable, HeaderBlocks, HeaderCount, Entries, Distinct;
    var s' := DoAdvance(s);
    assert s.commit.pc != Closing ==> s.commit.tail == |s.lh|;
    assert Pending(s') == Pending(s);
    if s.commit.pc == WriteLog { SameCopies(L, s, s', |s.lh|); }
  }
}
