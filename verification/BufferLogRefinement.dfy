/** The cache and the log together implement a plain block store with atomic, durable commits. */
module BufferLogRefinement {
  import opened LogFormat
  import opened BufferLog
  import opened BufferLogInvariant
  import opened BufferLogCommit
  import opened Wrappers

  /** The specification: `view` is what a reader sees, `durable` is what survives a crash. */
  datatype Store = Store(view: map<int, Block>, durable: map<int, Block>)

  datatype StoreStep = Skip | Write(blockno: int, data: Block) | CommitAll | LoseUncommitted

  function StoreApply(a: Store, step: StoreStep): Store {
    match step
    case Skip => a
    case Write(b, data) => a.(view := a.view[b := data])
    case CommitAll => a.(durable := a.view)
    case LoseUncommitted => a.(view := a.durable)
  }

  function Abstract(L: Layout, s: Sys): Store
    requires GoodDisk(L, s.disk)
  {
    Store(s.view, Durable(L, s.disk))
  }

  // Only three kinds of step are visible: log_write, the bwrite of a commit header, and a crash.
  function Meaning(s: Sys, step: Step): StoreStep {
    match step
    case LogWrite(k) => if Held(s, k) then Write(s.sessions[k].blockno, BufOf(s, k).data) else Skip
    case Bwrite => if s.commit.pc == WriteHead then CommitAll else Skip
    case Crash => LoseUncommitted
    case _ => Skip
  }

  /** Every step keeps the invariant. */
  lemma StepInv(L: Layout, s: Sys, step: Step)
    requires Inv(L, s) && Enabled(L, s, step)
    ensures Inv(L, Apply(L, s, step))
  {
    match step
    case BeginOp(op) => BeginInv(L, s, op);
    case EndOp(op) => EndInv(L, s, op);
    case Bget(sid, role, b, i) => BgetInv(L, s, sid, role, b, i);
    case AcquireSleep(k) => AcquireInv(L, s, k);
    case Bread(k) => BreadInv(L, s, k);
    case Modify(k, data) => ModifyInv(L, s, k, data);
    case LogWrite(k) => LogWriteInv(L, s, k);
    case ReleaseSleep(k) => ReleaseInv(L, s, k);
    case Unref(k) => UnrefInv(L, s, k);
    case LoadHead(k) => LoadHeadInv(L, s, k);
    case Fill(to, from) => FillInv(L, s, to, from);
    case Bwrite => BwriteInv(L, s);
    case Advance => AdvanceInv(L, s);
    case Crash => BootInv(L, s.disk, s.bufs);
  }

  ghost predicate Matches(L: Layout, s: Sys, step: Step)
    requires Enabled(L, s, step)
  {
    && GoodDisk(L, s.disk) && GoodDisk(L, Apply(L, s, step).disk)
    && Abstract(L, Apply(L, s, step)) == StoreApply(Abstract(L, s), Meaning(s, step))
  }

  /** Every step of the system is the store step it stands for. */
  lemma StepRefines(L: Layout, s: Sys, step: Step)
    requires Inv(L, s) && Enabled(L, s, step)
    ensures Inv(L, Apply(L, s, step)) && Matches(L, s, step)
  {
    hide Inv, Durable;
    StepInv(L, s, step);
    InvGood(L, s);
    InvGood(L, Apply(L, s, step));
    if step == Bwrite { BwriteDurable(L, s); }
    StepAbstract(L, s, step);
  }

  lemma InvGood(L: Layout, s: Sys)
    requires Inv(L, s)
    ensures GoodDisk(L, s.disk)
  {
  }

  // A step that is neither a log_write, a bwrite nor a crash changes neither the view nor the disk.
  lemma StepSilent(L: Layout, s: Sys, step: Step)
    requires Enabled(L, s, step) && !step.LogWrite? && !step.Bwrite? && !step.Crash?
    ensures Apply(L, s, step).view == s.view && Apply(L, s, step).disk == s.disk
  {
    match step
    case BeginOp(op) => assert Apply(L, s, step) == DoBegin(s, op);
    case EndOp(op) => assert Apply(L, s, step) == DoEnd(s, op);
    case Bget(sid, role, b, i) => assert Apply(L, s, step) == DoBget(s, sid, role, b, i);
    case AcquireSleep(k) => assert Apply(L, s, step) == DoAcquire(s, k);
    case Bread(k) => assert Apply(L, s, step) == DoBread(s, k);
    case Modify(k, data) => assert Apply(L, s, step) == DoModify(s, k, data);
    case ReleaseSleep(k) => assert Apply(L, s, step) == DoRelease(s, k);
    case Unref(k) => assert Apply(L, s, step) == DoUnref(s, k);
    case LoadHead(k) => assert Apply(L, s, step) == DoLoadHead(L, s, k);
    case Fill(to, from) => assert Apply(L, s, step) == DoFill(s, to, from);
    case Advance => assert Apply(L, s, step) == DoAdvance(s);
  }

  lemma StepAbstract(L: Layout, s: Sys, step: Step)
    requires Enabled(L, s, step) && GoodDisk(L, s.disk) && GoodDisk(L, Apply(L, s, step).disk)
    requires step == Bwrite ==>
      Durable(L, DoBwrite(s).disk) == if s.commit.pc == WriteHead then s.view else Durable(L, s.disk)
    ensures Matches(L, s, step)
  {
    hide Durable, GoodDisk;
    if step.LogWrite? || step.Bwrite? || step.Crash? {
    } else {
      hide Apply, Enabled;
      StepSilent(L, s, step);
    }
  }

  lemma BwriteDurable(L: Layout, s: Sys)
    requires Inv(L, s) && CanBwrite(s)
    ensures GoodDisk(L, DoBwrite(s).disk)
    ensures Durable(L, DoBwrite(s).disk) == if s.commit.pc == WriteHead then s.view else Durable(L, s.disk)
  {
    HeldByHolds(L, s, s.commit.cur.value);
    match s.commit.pc {
      case WriteLog => BwriteCopy(L, s);
      case WriteHead => BwriteCommit(L, s);
      case Install => BwriteHome(L, s);
      case _ => BwriteErase(L, s);
    }
  }

  // ---------- whole runs ----------

  ghost predicate Runs(L: Layout, s: Sys, steps: seq<Step>)
    decreases |steps|
  {
    steps == [] || (Enabled(L, s, steps[0]) && Runs(L, Apply(L, s, steps[0]), steps[1..]))
  }

  ghost function After(L: Layout, s: Sys, steps: seq<Step>): Sys
    requires Runs(L, s, steps)
    decreases |steps|
  {
    if steps == [] then s else After(L, Apply(L, s, steps[0]), steps[1..])
  }

  ghost function Meanings(L: Layout, s: Sys, steps: seq<Step>): seq<StoreStep>
    requires Runs(L, s, steps)
    decreases |steps|
  {
    if steps == [] then [] else [Meaning(s, steps[0])] + Meanings(L, Apply(L, s, steps[0]), steps[1..])
  }

  function StoreAfter(a: Store, steps: seq<StoreStep>): Store
    decreases |steps|
  {
    if steps == [] then a else StoreAfter(StoreApply(a, steps[0]), steps[1..])
  }

  lemma {:induction false} RunRefines(L: Layout, s: Sys, steps: seq<Step>)
    requires Inv(L, s) && Runs(L, s, steps)
    ensures Inv(L, After(L, s, steps))
    ensures Abstract(L, After(L, s, steps)) == StoreAfter(Abstract(L, s), Meanings(L, s, steps))
    decreases |steps|
  {
    if steps != [] {
      var s1 := Apply(L, s, steps[0]);
      StepRefines(L, s, steps[0]);
      RunRefines(L, s1, steps[1..]);
      assert Meanings(L, s, steps)[0] == Meaning(s, steps[0]);
      assert Meanings(L, s, steps)[1..] == Meanings(L, s1, steps[1..]);
    }
  }

  /** Main theorem. From power-on with any disk whose header is sound, every run of any number of
      clients, commits, crashes and recoveries keeps the invariant and behaves like the store. */
  lemma SystemRefinesStore(L: Layout, d: Disk, bufs: seq<Buf>, steps: seq<Step>)
    requires GoodDisk(L, d) && Runs(L, Booted(L, d, bufs), steps)
    ensures Inv(L, After(L, Booted(L, d, bufs), steps))
    ensures Abstract(L, After(L, Booted(L, d, bufs), steps))
         == StoreAfter(Store(Durable(L, d), Durable(L, d)), Meanings(L, Booted(L, d, bufs), steps))
  {
    BootInv(L, d, bufs);
    RunRefines(L, Booted(L, d, bufs), steps);
  }

  // ---------- consequences for every reachable state ----------

  /** bread returns the last logged contents of a block, whatever was evicted meanwhile. */
  lemma BreadReturnsLatest(L: Layout, d: Disk, bufs: seq<Buf>, steps: seq<Step>, k: nat)
    requires GoodDisk(L, d) && Runs(L, Booted(L, d, bufs), steps)
    ensures var s := After(L, Booted(L, d, bufs), steps);
      k in s.sessions && s.sessions[k].phase == Ready && s.sessions[k].role != Logger ==>
        && Held(s, k) && s.sessions[k].blockno in s.view
        && BufOf(s, k).data == s.view[s.sessions[k].blockno]
  {
    hide Inv;
    SystemRefinesStore(L, d, bufs, steps);
    LatestIn(L, After(L, Booted(L, d, bufs), steps), k);
  }

  lemma LatestIn(L: Layout, s: Sys, k: nat)
    requires Inv(L, s)
    ensures k in s.sessions && s.sessions[k].phase == Ready && s.sessions[k].role != Logger ==>
      Held(s, k) && s.sessions[k].blockno in s.view && BufOf(s, k).data == s.view[s.sessions[k].blockno]
  {
    if k in s.sessions { HeldByHolds(L, s, k); }
  }

  /** A clean valid buffer that nobody has locked equals the disk. */
  lemma CleanEqualsDisk(L: Layout, d: Disk, bufs: seq<Buf>, steps: seq<Step>, i: nat)
    requires GoodDisk(L, d) && Runs(L, Booted(L, d, bufs), steps)
    ensures var s := After(L, Booted(L, d, bufs), steps);
      i < |s.bufs| && Settled(L, s.bufs[i]) ==> s.bufs[i].blockno < |s.disk| && s.bufs[i].data == s.disk[s.bufs[i].blockno]
  {
    hide Inv;
    SystemRefinesStore(L, d, bufs, steps);
    CleanIn(L, After(L, Booted(L, d, bufs), steps), i);
  }

  // A clean valid buffer for a block of the disk, not in use.
  predicate Settled(L: Layout, b: Buf) {
    b.dev == DEV && b.valid && !b.dirty && b.lock == None && 0 <= b.blockno < L.size
  }

  lemma CleanIn(L: Layout, s: Sys, i: nat)
    requires Inv(L, s)
    ensures i < |s.bufs| && Settled(L, s.bufs[i]) ==> s.bufs[i].blockno < |s.disk| && s.bufs[i].data == s.disk[s.bufs[i].blockno]
  {
    if i < |s.bufs| && Settled(L, s.bufs[i]) {
      var b := s.bufs[i].blockno;
      BufFactsHold(L, s, i);
      if b in Pending(s) && !s.recovering {
        var j := PinnedIn(L, s, b);
        assert HasKey(s.bufs[i], b);
      }
    }
  }

  /** Every logged block that is not yet installed has exactly one buffer, and that one is dirty. */
  lemma PinnedHere(L: Layout, d: Disk, bufs: seq<Buf>, steps: seq<Step>, b: int)
    requires GoodDisk(L, d) && Runs(L, Booted(L, d, bufs), steps)
    ensures var s := After(L, Booted(L, d, bufs), steps); b in Pending(s) && !s.recovering ==> PinnedOnce(s, b)
  {
    hide Inv;
    SystemRefinesStore(L, d, bufs, steps);
    var s := After(L, Booted(L, d, bufs), steps);
    if b in Pending(s) && !s.recovering { var i := PinnedIn(L, s, b); }
  }

  ghost predicate OnlyBuffer(s: Sys, b: int, i: nat) {
    && i < |s.bufs| && HasKey(s.bufs[i], b) && s.bufs[i].dirty
    && forall j :: 0 <= j < |s.bufs| && j != i ==> !HasKey(s.bufs[j], b)
  }

  ghost predicate PinnedOnce(s: Sys, b: int) {
    exists i: nat :: OnlyBuffer(s, b, i)
  }

  lemma PinnedIn(L: Layout, s: Sys, b: int) returns (i: nat)
    requires Inv(L, s) && b in Pending(s) && !s.recovering
    ensures OnlyBuffer(s, b, i)
  {
    assert Pinned(s, b);
    i :| 0 <= i < |s.bufs| && HasKey(s.bufs[i], b) && s.bufs[i].dirty;
    BufFactsHold(L, s, i);
  }

  // ---------- crash atomicity ----------

  // A run during which recovery is under way; it may crash and start over any number of times.
  ghost predicate Recovers(L: Layout, s: Sys, steps: seq<Step>)
    decreases |steps|
  {
    steps == [] || (s.recovering && Enabled(L, s, steps[0]) && Recovers(L, Apply(L, s, steps[0]), steps[1..]))
  }

  ghost function Recovered(L: Layout, s: Sys, steps: seq<Step>): Sys
    requires Recovers(L, s, steps)
    decreases |steps|
  {
    if steps == [] then s else Recovered(L, Apply(L, s, steps[0]), steps[1..])
  }

  // While recovering, no client runs and no commit header is written.
  lemma RecoveringIsSilent(L: Layout, s: Sys, step: Step)
    requires Inv(L, s) && Enabled(L, s, step) && s.recovering
    ensures Meaning(s, step) == Skip || Meaning(s, step) == LoseUncommitted
  {
    if step.LogWrite? { HeldByHolds(L, s, step.sid); }
  }

  /** Recovery, however often it is itself cut short by crashes, leaves in the home blocks exactly
      what the disk at the first crash recovers to. */
  lemma {:induction false} RecoveryCompletes(L: Layout, s: Sys, steps: seq<Step>)
    requires Inv(L, s) && s.view == Durable(L, s.disk) && Recovers(L, s, steps)
    ensures Inv(L, Recovered(L, s, steps))
    ensures Recovered(L, s, steps).view == s.view && Durable(L, Recovered(L, s, steps).disk) == s.view
    ensures Recovered(L, s, steps).commit.pc == Idle ==> HomeOf(L, Recovered(L, s, steps).disk) == s.view
    decreases |steps|
  {
    if steps == [] {
      if s.commit.pc == Idle { DurableEmpty(L, s.disk); }
    } else {
      RecoveringIsSilent(L, s, steps[0]);
      StepRefines(L, s, steps[0]);
      RecoveryCompletes(L, Apply(L, s, steps[0]), steps[1..]);
    }
  }

  // What the store makes durable is the view at the last commit, never a mixture.
  lemma {:induction false} DurableIsLastCommit(a: Store, steps: seq<StoreStep>, c: nat)
    requires c < |steps| && steps[c] == CommitAll
    requires forall i :: c < i < |steps| ==> steps[i] != CommitAll
    ensures StoreAfter(a, steps).durable == StoreAfter(a, steps[..c]).view
    decreases |steps|
  {
    if c == 0 {
      NoCommitKeeps(StoreApply(a, steps[0]), steps[1..]);
    } else {
      DurableIsLastCommit(StoreApply(a, steps[0]), steps[1..], c - 1);
      assert steps[1..][..c - 1] == steps[..c][1..];
    }
  }

  lemma {:induction false} NoCommitKeeps(a: Store, steps: seq<StoreStep>)
    requires forall i :: 0 <= i < |steps| ==> steps[i] != CommitAll
    ensures StoreAfter(a, steps).durable == a.durable
    decreases |steps|
  {
    if steps != [] { NoCommitKeeps(StoreApply(a, steps[0]), steps[1..]); }
  }

  /** Crash atomicity. Run the system from power-on, crash at any point, and let recovery run to its
      end through any further crashes: the home blocks are those of the last commit before the
      crash, or of the initial disk if nothing was committed. */
  lemma CrashAtomicity(L: Layout, d: Disk, bufs: seq<Buf>, steps: seq<Step>, recovery: seq<Step>)
    requires GoodDisk(L, d) && Runs(L, Booted(L, d, bufs), steps)
    ensures GoodDisk(L, After(L, Booted(L, d, bufs), steps).disk)
    ensures var s := After(L, Booted(L, d, bufs), steps);
      Recovers(L, Booted(L, s.disk, s.bufs), recovery) ==>
        var r := Recovered(L, Booted(L, s.disk, s.bufs), recovery);
        DiskOk(L, r.disk) && (r.commit.pc == Idle ==>
          LastCommitted(Store(Durable(L, d), Durable(L, d)), Meanings(L, Booted(L, d, bufs), steps), HomeOf(L, r.disk)))
  {
    var s := After(L, Booted(L, d, bufs), steps);
    var ms := Meanings(L, Booted(L, d, bufs), steps);
    var a := Store(Durable(L, d), Durable(L, d));
    SystemRefinesStore(L, d, bufs, steps);
    BootInv(L, s.disk, s.bufs);
    if Recovers(L, Booted(L, s.disk, s.bufs), recovery) {
      RecoveryCompletes(L, Booted(L, s.disk, s.bufs), recovery);
      LastCommittedHolds(a, ms);
    }
  }

  // home is the view at the last commit of the run, or the initial contents if there is none.
  ghost predicate LastCommitted(a: Store, ms: seq<StoreStep>, home: map<int, Block>) {
    && (forall c: nat :: c < |ms| && ms[c] == CommitAll && (forall i :: c < i < |ms| ==> ms[i] != CommitAll)
          ==> home == StoreAfter(a, ms[..c]).view)
    && ((forall i :: 0 <= i < |ms| ==> ms[i] != CommitAll) ==> home == a.durable)
  }

  lemma LastCommittedHolds(a: Store, ms: seq<StoreStep>)
    ensures LastCommitted(a, ms, StoreAfter(a, ms).durable)
  {
    forall c: nat | c < |ms| && ms[c] == CommitAll && (forall i :: c < i < |ms| ==> ms[i] != CommitAll)
      ensures StoreAfter(a, ms).durable == StoreAfter(a, ms[..c]).view
    {
      DurableIsLastCommit(a, ms, c);
    }
    if forall i :: 0 <= i < |ms| ==> ms[i] != CommitAll { NoCommitKeeps(a, ms); }
  }

  // ---------- the reservation protocol ----------

  /** In every reachable state the entries plus all unspent reservations fit the log, entries are
      distinct, a commit runs only with no operation outstanding, and so end_op never finds
      log.committing set. */
  lemma ReservationsFit(L: Layout, d: Disk, bufs: seq<Buf>, steps: seq<Step>)
    requires GoodDisk(L, d) && Runs(L, Booted(L, d, bufs), steps)
    ensures var s := After(L, Booted(L, d, bufs), steps);
      && |s.lh| + Reserved(s.ops) <= LOGSIZE && Distinct(s.lh)
      && (s.commit.pc != Idle ==> s.ops == map[])
      && (forall op :: CanEnd(s, op) ==> s.commit.pc == Idle)
  {
    SystemRefinesStore(L, d, bufs, steps);
  }

  /** The "too big a transaction" test counts entries before it looks for one to absorb the write. In
      every reachable state an operation that is outstanding meets it exactly when the log is full: all
      of the area, or LOGSIZE entries. With an area for LOGSIZE copies beside the header, an operation
      that has not used up its reservation never meets it; one that has may, on an absorbed write. */
  lemma PanicExactly(L: Layout, d: Disk, bufs: seq<Buf>, steps: seq<Step>, op: nat)
    requires GoodDisk(L, d) && Runs(L, Booted(L, d, bufs), steps)
    ensures var s := After(L, Booted(L, d, bufs), steps);
      op in s.ops ==>
        && (LogWritePanics(L, s) <==> |s.lh| == L.Capacity())
        && (s.ops[op] > 0 && L.nlog > LOGSIZE ==> !LogWritePanics(L, s))
  {
    hide Inv;
    SystemRefinesStore(L, d, bufs, steps);
    PanicIn(L, After(L, Booted(L, d, bufs), steps), op);
  }

  lemma PanicIn(L: Layout, s: Sys, op: nat)
    requires Inv(L, s)
    ensures op in s.ops ==> (LogWritePanics(L, s) <==> |s.lh| == L.Capacity())
    ensures op in s.ops && s.ops[op] > 0 && L.nlog > LOGSIZE ==> !LogWritePanics(L, s)
  {
    if op in s.ops {
      ReservedSplit(s.ops, op);
      MapMinus(s.ops, op);
    }
  }

  /** An operation whose reservation is used up may still write a block it has logged, as far as the
      protocol goes, and panics exactly in a full log, whatever the size of the log area. */
  lemma AbsorbedPanics(L: Layout, s: Sys, k: nat)
    requires Inv(L, s) && CanModify(s, k) && s.sessions[k].role.op in s.ops && s.sessions[k].blockno in s.lh
    ensures CanLogWrite(L, s, k) <==> |s.lh| < L.Capacity()
  {
    PanicIn(L, s, s.sessions[k].role.op);
    assert SessionInv(L, s, k);
  }
}
