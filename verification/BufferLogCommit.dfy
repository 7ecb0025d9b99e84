/** Preservation of the invariant by log_write, by the disk writes of commit and recovery, and by a crash. */
module BufferLogCommit {
  import opened LogFormat
  import opened BufferLog
  import opened BufferLogInvariant
  import opened Wrappers

  // ---------- what does not depend on data, flags and log state ----------

  // Same buffers under the same keys, locks and counts; sessions keep their place.
  ghost predicate SameShape(s: Sys, s': Sys) {
    && |s'.bufs| == |s.bufs| && s'.sessions.Keys == s.sessions.Keys
    && (forall i :: 0 <= i < |s.bufs| ==> SameKey(s.bufs[i], s'.bufs[i]))
    && (forall k :: k in s.sessions ==> SameSession(s.sessions[k], s'.sessions[k]))
    && s'.ops.Keys == s.ops.Keys && s'.recovering == s.recovering
    && (s'.commit.pc == Idle <==> s.commit.pc == Idle)
  }

  ghost predicate SameKey(b: Buf, b': Buf) {
    b'.dev == b.dev && b'.blockno == b.blockno && b'.lock == b.lock && b'.refcnt == b.refcnt && (b.valid ==> b'.valid)
  }

  ghost predicate SameSession(x: Session, y: Session) {
    y == x || (y == x.(phase := Ready) && x.phase == Modified)
  }

  lemma SameShapeKeys(s: Sys, s': Sys)
    requires KeysInv(s) && SameShape(s, s')
    ensures KeysInv(s')
  {
    forall i, j | 0 <= i < j < |s'.bufs| && s'.bufs[i].dev == DEV ensures !HasKey(s'.bufs[j], s'.bufs[i].blockno) {
      assert SameKey(s.bufs[i], s'.bufs[i]) && SameKey(s.bufs[j], s'.bufs[j]);
    }
  }

  lemma SameShapeSessions(L: Layout, s: Sys, s': Sys)
    requires SessionsInv(L, s) && SameShape(s, s')
    ensures SessionsInv(L, s')
  {
    forall k | k in s'.sessions ensures SessionInv(L, s', k) {
      assert SessionInv(L, s, k) && SameSession(s.sessions[k], s'.sessions[k]);
      assert SameKey(s.bufs[s.sessions[k].buf], s'.bufs[s.sessions[k].buf]);
    }
  }

  lemma SameShapeLocks(s: Sys, s': Sys)
    requires LocksInv(s) && RefsInv(s) && SameShape(s, s')
    ensures LocksInv(s') && RefsInv(s')
  {
    forall i | 0 <= i < |s'.bufs| ensures LockInv(s', i) && s'.bufs[i].refcnt == |Users(s', i)| {
      assert LockInv(s, i) && SameKey(s.bufs[i], s'.bufs[i]);
      assert Users(s', i) == Users(s, i);
    }
  }

  lemma SameShapeInv(L: Layout, s: Sys, s': Sys)
    requires KeysInv(s) && SessionsInv(L, s) && LocksInv(s) && RefsInv(s) && SameShape(s, s')
    ensures KeysInv(s') && SessionsInv(L, s') && LocksInv(s') && RefsInv(s')
  {
    SameShapeKeys(s, s');
    SameShapeSessions(L, s, s');
    SameShapeLocks(s, s');
  }

  // ---------- log_write ----------

  lemma LogWriteInv(L: Layout, s: Sys, k: nat)
    requires Inv(L, s) && CanLogWrite(L, s, k)
    ensures Inv(L, DoLogWrite(s, k))
  {
    HeldByHolds(L, s, k);
    LogWriteLog(L, s, k);
    LogWriteDisk(L, s, k);
    SameShapeInv(L, s, DoLogWrite(s, k));
    LogWriteBufs(L, s, k);
  }

  // A new entry uses up one unit of its operation's reservation; an absorbed write uses none.
  lemma LogWriteLog(L: Layout, s: Sys, k: nat)
    requires LogInv(L, s) && HeldBy(L, s, k) && CanLogWrite(L, s, k)
    ensures LogInv(L, DoLogWrite(s, k)) && SameShape(s, DoLogWrite(s, k)) && s.commit.pc == Idle && !s.recovering
  {
    hide Reserved, Durable, HeaderBlocks, HeaderCount;
    var op := s.sessions[k].role.op;
    if s.sessions[k].blockno !in s.lh {
      SpendOne(s.ops, op);
    }
  }

  lemma SpendOne(ops: map<nat, nat>, op: nat)
    requires op in ops && ops[op] > 0
    ensures Reserved(ops[op := ops[op] - 1]) == Reserved(ops) - 1
  {
    ReservedSplit(ops, op);
    ReservedSplit(ops[op := ops[op] - 1], op);
    assert ops[op := ops[op] - 1] - {op} == ops - {op};
  }

  lemma LogWriteDisk(L: Layout, s: Sys, k: nat)
    requires DiskInv(L, s) && CurInv(L, s) && HeldBy(L, s, k) && CanLogWrite(L, s, k) && s.commit.pc == Idle
    ensures DiskInv(L, DoLogWrite(s, k)) && CurInv(L, DoLogWrite(s, k))
  {
  }

  lemma LogWriteBufs(L: Layout, s: Sys, k: nat)
    requires BufsInv(L, s) && DirtyInv(s) && LocksInv(s) && HeldBy(L, s, k) && CanLogWrite(L, s, k)
    requires s.commit.pc == Idle && s.commit.cur == None
    ensures BufsInv(L, DoLogWrite(s, k)) && DirtyInv(DoLogWrite(s, k))
  {
    var s', i := DoLogWrite(s, k), s.sessions[k].buf;
    forall j | 0 <= j < |s'.bufs|
      ensures HomeData(L, s', s'.bufs[j]) && LogData(L, s', s'.bufs[j]) && DirtyOk(s', s'.bufs[j])
    {
      assert HomeData(L, s, s.bufs[j]) && LogData(L, s, s.bufs[j]) && DirtyOk(s, s.bufs[j]) && LockInv(s, j);
      assert j != i ==> Unlogged(s', s'.bufs[j]) == Unlogged(s, s.bufs[j]);
    }
    forall b | b in Pending(s') ensures Pinned(s', b) {
      if b == s.sessions[k].blockno {
        assert HasKey(s'.bufs[i], b) && s'.bufs[i].dirty;
      } else {
        assert Pinned(s, b);
        var j :| 0 <= j < |s.bufs| && HasKey(s.bufs[j], b) && s.bufs[j].dirty;
        assert HasKey(s'.bufs[j], b) && s'.bufs[j].dirty;
      }
    }
  }

  // ---------- read_head ----------

  lemma LoadHeadInv(L: Layout, s: Sys, k: nat)
    requires Inv(L, s) && CanLoadHead(L, s, k)
    ensures Inv(L, DoLoadHead(L, s, k))
  {
    HeldByHolds(L, s, k);
    LoadHeadFacts(L, s, k);
    LoadHeadLog(L, s, k);
    LoadHeadDisk(L, s, k);
    SameShapeInv(L, s, DoLoadHead(L, s, k));
    LoadHeadBufs(L, s, k);
  }

  lemma LoadHeadFacts(L: Layout, s: Sys, k: nat)
    requires L.Valid() && LogInv(L, s) && CurSession(L, s) && HeldBy(L, s, k) && CanLoadHead(L, s, k)
    ensures s.commit.cur == None && s.recovering && L.logstart < |s.disk| && BufOf(s, k).data == s.disk[L.logstart]
    ensures SameShape(s, DoLoadHead(L, s, k))
  {
    hide Reserved, Entries, Distinct, HeaderBlocks, HeaderCount, HomeData, DirtyOk;
    assert LogData(L, s, BufOf(s, k));
  }

  lemma LoadHeadLog(L: Layout, s: Sys, k: nat)
    requires LogInv(L, s) && GoodDisk(L, s.disk) && CanLoadHead(L, s, k) && BufOf(s, k).data == s.disk[L.logstart]
    ensures LogInv(L, DoLoadHead(L, s, k)) && CurInv(L, DoLoadHead(L, s, k))
  {
    ReservedEmpty(s.ops);
    hide Reserved;
  }

  // The header on disk names exactly the blocks in which the disk differs from what it recovers to.
  lemma LoadHeadDisk(L: Layout, s: Sys, k: nat)
    requires DiskInv(L, s) && CanLoadHead(L, s, k) && BufOf(s, k).data == s.disk[L.logstart]
    ensures DiskInv(L, DoLoadHead(L, s, k))
  {
    hide Durable;
    var s' := DoLoadHead(L, s, k);
    DurableSplit(L, s.disk);
    assert Pending(s') == s'.lh;
    assert LogCopies(L, s', |s'.lh|) by { hide DiskInv; HeaderEntries(L, s.disk); }
  }

  lemma HeaderEntries(L: Layout, d: Disk)
    requires GoodDisk(L, d)
    ensures forall i :: 0 <= i < |HeaderBlocks(d[L.logstart])| ==> L.LogBlock(i) < |d|
  {
  }

  lemma DurableSplit(L: Layout, d: Disk)
    requires GoodDisk(L, d)
    ensures var es := HeaderBlocks(d[L.logstart]);
      && (forall i :: 0 <= i < |es| ==> es[i] in Durable(L, d) && d[L.LogBlock(i)] == Durable(L, d)[es[i]])
      && (forall b: int :: L.Home(b) && b !in es ==> b in Durable(L, d) && d[b] == Durable(L, d)[b])
  {
    var es := HeaderBlocks(d[L.logstart]);
    forall i | 0 <= i < |es| ensures d[L.LogBlock(i)] == Installed(L, d, es, |es|)[es[i]] {
      InstalledAt(L, d, es, |es|, es[i]);
    }
    forall b: int | L.Home(b) && b !in es ensures d[b] == Installed(L, d, es, |es|)[b] {
      InstalledAt(L, d, es, |es|, b);
    }
  }

  lemma LoadHeadBufs(L: Layout, s: Sys, k: nat)
    requires L.Valid() && BufsInv(L, s) && DirtyInv(s) && CanLoadHead(L, s, k) && s.recovering && s.commit.cur == None
    ensures BufsInv(L, DoLoadHead(L, s, k)) && DirtyInv(DoLoadHead(L, s, k))
  {
    var s' := DoLoadHead(L, s, k);
    forall i | 0 <= i < |s'.bufs|
      ensures HomeData(L, s', s'.bufs[i]) && LogData(L, s', s'.bufs[i]) && DirtyOk(s', s'.bufs[i])
    {
      assert LogData(L, s, s.bufs[i]) && DirtyOk(s, s.bufs[i]);
    }
  }

  // ---------- filling the buffer to be written ----------

  lemma FillInv(L: Layout, s: Sys, to: nat, from: nat)
    requires Inv(L, s) && CanFill(L, s, to, from)
    ensures Inv(L, DoFill(s, to, from))
  {
    HeldByHolds(L, s, to);
    HeldByHolds(L, s, from);
    FillCur(L, s, to, from);
    FillLog(L, s, to, from);
    SameShapeInv(L, s, DoFill(s, to, from));
    FillBufs(L, s, to, from);
  }

  lemma FillCur(L: Layout, s: Sys, to: nat, from: nat)
    requires LogInv(L, s) && DiskInv(L, s) && HeldBy(L, s, to) && HeldBy(L, s, from) && CanFill(L, s, to, from)
    ensures CurInv(L, DoFill(s, to, from))
  {
    hide Reserved, Durable, Distinct;
    var s' := DoFill(s, to, from);
    assert CurSession(L, s');
    match s.commit.pc {
      case WriteLog => FillCopy(L, s, from);
      case Install => FillHome(L, s, from);
      case _ =>
    }
  }

  lemma FillCopy(L: Layout, s: Sys, from: nat)
    requires LogInv(L, s) && ViewKeys(L, s) && HeldBy(L, s, from) && s.commit.pc == WriteLog && Copying(s)
    requires LoggerReady(s, from, Origin(L, s))
    ensures s.lh[s.commit.tail] in s.view && BufOf(s, from).data == s.view[s.lh[s.commit.tail]]
  {
    hide Reserved, Durable, Distinct;
    assert s.lh[s.commit.tail] in s.lh;
    assert HomeData(L, s, BufOf(s, from));
  }

  lemma FillHome(L: Layout, s: Sys, from: nat)
    requires L.Valid() && LogCopies(L, s, |s.lh|) && HeldBy(L, s, from) && s.commit.pc == Install && Copying(s)
    requires LoggerReady(s, from, Origin(L, s)) && s.commit.cur == None && |s.lh| <= LOGSIZE && |s.lh| < L.nlog
    ensures s.lh[s.commit.tail] in s.view && BufOf(s, from).data == s.view[s.lh[s.commit.tail]]
  {
    assert LogData(L, s, BufOf(s, from));
    assert LogCopy(L, s, s.commit.tail);
  }

  lemma FillLog(L: Layout, s: Sys, to: nat, from: nat)
    requires LogInv(L, s) && DiskInv(L, s) && CanFill(L, s, to, from)
    ensures LogInv(L, DoFill(s, to, from)) && DiskInv(L, DoFill(s, to, from)) && SameShape(s, DoFill(s, to, from))
  {
    hide Reserved, Durable, HeaderBlocks, HeaderCount, Entries, Distinct, Filled;
    var s' := DoFill(s, to, from);
    assert Pending(s') == Pending(s);
    SameCopies(L, s, s', s.commit.tail);
    SameCopies(L, s, s', |s.lh|);
  }

  lemma FillBufs(L: Layout, s: Sys, to: nat, from: nat)
    requires LogInv(L, s) && BufsInv(L, s) && DirtyInv(s) && LocksInv(s) && HeldBy(L, s, to) && CanFill(L, s, to, from)
    requires CurInv(L, DoFill(s, to, from))
    ensures BufsInv(L, DoFill(s, to, from)) && DirtyInv(DoFill(s, to, from))
  {
    var s', i := DoFill(s, to, from), s.sessions[to].buf;
    assert Pending(s') == Pending(s);
    forall j | 0 <= j < |s'.bufs|
      ensures HomeData(L, s', s'.bufs[j]) && LogData(L, s', s'.bufs[j]) && DirtyOk(s', s'.bufs[j])
    {
      assert HomeData(L, s, s.bufs[j]) && LogData(L, s, s.bufs[j]) && DirtyOk(s, s.bufs[j]) && LockInv(s, j);
      assert Unlogged(s', s'.bufs[j]) == Unlogged(s, s.bufs[j]);
      assert j != i ==> !IsCur(s', s'.bufs[j]);
    }
    forall b | b in Pending(s') && !s'.recovering ensures Pinned(s', b) {
      assert Pinned(s, b);
      var j :| 0 <= j < |s.bufs| && HasKey(s.bufs[j], b) && s.bufs[j].dirty;
      assert HasKey(s'.bufs[j], b) && s'.bufs[j].dirty;
    }
  }

  // ---------- bwrite ----------

  // The buffer about to be written is the one for the target block, filled.
  ghost predicate WritesTarget(L: Layout, s: Sys) {
    && s.commit.cur.Some? && Held(s, s.commit.cur.value) && Copying(s) && Writing(s.commit.pc)
    && BufOf(s, s.commit.cur.value).blockno == Target(L, s)
    && CurData(L, s, BufOf(s, s.commit.cur.value).data)
  }

  lemma BwriteInv(L: Layout, s: Sys)
    requires Inv(L, s) && CanBwrite(s)
    ensures Inv(L, DoBwrite(s))
  {
    var k := s.commit.cur.value;
    HeldByHolds(L, s, k);
    BwriteLog(L, s);
    match s.commit.pc {
      case WriteLog => BwriteCopy(L, s);
      case WriteHead => BwriteCommit(L, s);
      case Install => BwriteHome(L, s);
      case _ => BwriteErase(L, s);
    }
    SameShapeInv(L, s, DoBwrite(s));
    BwriteBufs(L, s);
  }

  lemma BwriteLog(L: Layout, s: Sys)
    requires LogInv(L, s) && CurInv(L, s) && CanBwrite(s)
    ensures LogInv(L, DoBwrite(s)) && CurInv(L, DoBwrite(s)) && SameShape(s, DoBwrite(s))
  {
    hide Reserved, Entries, Distinct, EncodeHeader, LoggerReady;
  }

  // Installing a block takes it off the pending list.
  lemma PendingBwrite(s: Sys)
    requires CanBwrite(s) && Copying(s)
    ensures s.commit.pc != Install ==> Pending(DoBwrite(s)) == Pending(s)
    ensures s.commit.pc == Install ==> Pending(s) == [s.lh[s.commit.tail]] + Pending(DoBwrite(s))
  {
    assert s.lh[0..] == s.lh;
  }

  // write_log: the copy is outside the home area and the header still says the log is empty.
  lemma BwriteCopy(L: Layout, s: Sys)
    requires LogInv(L, s) && DiskInv(L, s) && CanBwrite(s) && WritesTarget(L, s)
    requires s.commit.pc == WriteLog
    ensures DiskInv(L, DoBwrite(s))
    ensures Durable(L, DoBwrite(s).disk) == Durable(L, s.disk)
  {
    hide Reserved, Durable, EncodeHeader, HeaderBlocks, Distinct;
    var s' := DoBwrite(s);
    forall i: nat | i < s'.commit.tail ensures LogCopy(L, s', i) {
      assert i < s.commit.tail ==> LogCopy(L, s, i);
    }
    DurableEmpty(L, s.disk);
    DurableEmpty(L, s'.disk);
  }

  // write_head: the disk recovers to the new contents from this write on.
  lemma BwriteCommit(L: Layout, s: Sys)
    requires LogInv(L, s) && DiskInv(L, s) && CanBwrite(s) && WritesTarget(L, s)
    requires s.commit.pc == WriteHead
    ensures DiskInv(L, DoBwrite(s))
    ensures Durable(L, DoBwrite(s).disk) == s.view
  {
    hide Reserved, Durable, EncodeHeader, HeaderBlocks, HeaderCount, Entries, Distinct, GoodHeader;
    var s' := DoBwrite(s);
    PendingBwrite(s);
    assert s'.disk == s.disk[L.logstart := EncodeHeader(s.disk[L.logstart], s.lh)];
    forall i: nat | i < |s.lh| ensures LogCopy(L, s', i) && s.disk[L.LogBlock(i)] == s.view[s.lh[i]] {
      assert LogCopy(L, s, i);
    }
    CommitDisk(L, s.disk, s.lh, s.view);
  }

  // install_trans: writing a block that the header names does not change what recovery computes.
  lemma BwriteHome(L: Layout, s: Sys)
    requires LogInv(L, s) && DiskInv(L, s) && CanBwrite(s) && WritesTarget(L, s)
    requires s.commit.pc == Install
    ensures DiskInv(L, DoBwrite(s))
    ensures Durable(L, DoBwrite(s).disk) == Durable(L, s.disk)
  {
    hide Reserved, Durable, HeaderBlocks, HeaderCount, Distinct;
    var s', t := DoBwrite(s), s.commit.tail;
    var b := s.lh[t];
    PendingBwrite(s);
    InstallDisk(L, s.disk, b, s.view[b]);
    assert s'.disk == s.disk[b := s.view[b]];
    assert s'.disk[L.logstart] == s.disk[L.logstart];
    assert LogCopies(L, s', |s.lh|) by { HomeWriteKeepsCopies(L, s, s', b); }
    forall c: int | L.Home(c) && c !in Pending(s') ensures s'.disk[c] == s.view[c] {
      assert c == b || c !in Pending(s);
    }
  }

  lemma HomeWriteKeepsCopies(L: Layout, s: Sys, s': Sys, b: int)
    requires Entries(L, s.lh) && LogCopies(L, s, |s.lh|) && L.Home(b) && b < |s.disk| && b in s.view
    requires s'.disk == s.disk[b := s.view[b]] && s'.lh == s.lh && s'.view == s.view
    ensures LogCopies(L, s', |s.lh|)
  {
    forall i: nat | i < |s.lh| ensures LogCopy(L, s', i) {
      assert LogCopy(L, s, i) && L.InLog(L.LogBlock(i));
    }
  }

  // the erasing write_head: every home block has arrived, so the log may be dropped.
  lemma BwriteErase(L: Layout, s: Sys)
    requires LogInv(L, s) && DiskInv(L, s) && CanBwrite(s) && WritesTarget(L, s)
    requires s.commit.pc == ClearHead
    ensures DiskInv(L, DoBwrite(s))
    ensures Durable(L, DoBwrite(s).disk) == Durable(L, s.disk)
  {
    hide Reserved, Durable;
    var s' := DoBwrite(s);
    HeaderRoundTrip(s.disk[L.logstart], []);
    DurableEmpty(L, s'.disk);
  }

  lemma BwriteBufs(L: Layout, s: Sys)
    requires BufsInv(L, s) && DirtyInv(s) && LocksInv(s) && LogInv(L, s) && CurInv(L, s)
    requires CanBwrite(s) && HeldBy(L, s, s.commit.cur.value) && |s.disk| == L.size && ViewKeys(L, s)
    ensures BufsInv(L, DoBwrite(s)) && DirtyInv(DoBwrite(s))
  {
    hide Reserved, Entries, Distinct, EncodeHeader, HomeData, LogData, DirtyOk;
    var s' := DoBwrite(s);
    PendingBwrite(s);
    forall j | 0 <= j < |s'.bufs|
      ensures HomeData(L, s', s'.bufs[j]) && LogData(L, s', s'.bufs[j]) && DirtyOk(s', s'.bufs[j])
    {
      assert LockInv(s, j);
      if j == s.sessions[s.commit.cur.value].buf { BwrittenBuf(L, s); } else { OtherBuf(L, s, j); }
    }
    forall b | b in Pending(s') && !s'.recovering ensures Pinned(s', b) {
      assert b in Pending(s);
      StaysPinned(L, s, b);
    }
  }

  // The block of the written buffer is not pending afterwards, unless it is a log block.
  lemma BwrittenBuf(L: Layout, s: Sys)
    requires LogInv(L, s) && CurInv(L, s) && CanBwrite(s) && HeldBy(L, s, s.commit.cur.value)
    requires |s.disk| == L.size && ViewKeys(L, s)
    ensures var b := BufOf(DoBwrite(s), s.commit.cur.value);
      HomeData(L, DoBwrite(s), b) && LogData(L, DoBwrite(s), b) && DirtyOk(DoBwrite(s), b)
  {
    hide Reserved, EncodeHeader;
    PendingBwrite(s);
  }

  lemma OtherBuf(L: Layout, s: Sys, j: nat)
    requires CanBwrite(s) && CurSession(L, s) && HeldBy(L, s, s.commit.cur.value) && |s.disk| == L.size
    requires j < |s.bufs| && j != s.sessions[s.commit.cur.value].buf && LockInv(s, j)
    requires HomeData(L, s, s.bufs[j]) && LogData(L, s, s.bufs[j]) && DirtyOk(s, s.bufs[j])
    ensures HomeData(L, DoBwrite(s), s.bufs[j]) && LogData(L, DoBwrite(s), s.bufs[j]) && DirtyOk(DoBwrite(s), s.bufs[j])
  {
    var s' := DoBwrite(s);
    PendingBwrite(s);
    assert Unlogged(s', s.bufs[j]) == Unlogged(s, s.bufs[j]);
    assert s.bufs[j].dev == DEV ==> s.bufs[j].blockno != BufOf(s, s.commit.cur.value).blockno;
  }

  lemma StaysPinned(L: Layout, s: Sys, b: int)
    requires CanBwrite(s) && LogInv(L, s) && CurSession(L, s) && HeldBy(L, s, s.commit.cur.value)
    requires Pinned(s, b) && b in Pending(DoBwrite(s))
    ensures Pinned(DoBwrite(s), b)
  {
    hide Reserved;
    var s' := DoBwrite(s);
    PendingBwrite(s);
    var j :| 0 <= j < |s.bufs| && HasKey(s.bufs[j], b) && s.bufs[j].dirty;
    assert HasKey(s'.bufs[j], b) && s'.bufs[j].dirty;
  }

  // ---------- boot ----------

  lemma BootInv(L: Layout, d: Disk, bufs: seq<Buf>)
    requires GoodDisk(L, d)
    ensures Inv(L, Booted(L, d, bufs))
  {
    var s := Booted(L, d, bufs);
    assert forall i :: 0 <= i < |s.bufs| ==> Users(s, i) == {};
  }
}
