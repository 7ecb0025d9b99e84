/** A commit and a recovery get to their ends: how many steps they take, and that the buffers suffice. */
module BufferLogProgress {
  import opened LogFormat
  import opened BufferLog
  import opened BufferLogInvariant
  import opened BufferLogCommit
  import opened BufferLogRefinement
  import opened Wrappers

  // ---------- once everything is quiet ----------

  // Nothing is left in the log, and the home blocks are the current contents.
  ghost predicate AllHome(L: Layout, s: Sys) {
    GoodDisk(L, s.disk) && s.lh == [] && HomeOf(L, s.disk) == s.view && Durable(L, s.disk) == s.view
  }

  /** In every run, when no operation is outstanding and the commit is over, everything that was logged
      since the last crash is in its home block and survives the next one. */
  lemma QuietIsDurable(L: Layout, d: Disk, bufs: seq<Buf>, steps: seq<Step>)
    requires GoodDisk(L, d) && Runs(L, Booted(L, d, bufs), steps)
    ensures var s := After(L, Booted(L, d, bufs), steps); s.ops == map[] && s.commit.pc == Idle ==> AllHome(L, s)
  {
    SystemRefinesStore(L, d, bufs, steps);
    hide Inv, AllHome;
    QuietIn(L, After(L, Booted(L, d, bufs), steps));
  }

  lemma QuietIn(L: Layout, s: Sys)
    requires Inv(L, s)
    ensures s.ops == map[] && s.commit.pc == Idle ==> AllHome(L, s)
  {
    if s.ops == map[] && s.commit.pc == Idle {
      DurableEmpty(L, s.disk);
      hide Durable;
      assert HomeOf(L, s.disk).Keys == s.view.Keys;
    }
  }

  // ---------- who is outstanding ----------

  // The last thing that happened to op: it has begun, and has neither ended nor been cut off by a crash.
  predicate Outstanding(steps: seq<Step>, op: nat) {
    steps != [] &&
      var n := |steps| - 1;
      steps[n] == BeginOp(op) || (Outstanding(steps[..n], op) && steps[n] != EndOp(op) && !steps[n].Crash?)
  }

  lemma OpsAfter(L: Layout, s: Sys, step: Step, op: nat)
    requires Enabled(L, s, step)
    ensures op in Apply(L, s, step).ops <==> step == BeginOp(op) || (op in s.ops && step != EndOp(op) && !step.Crash?)
  {
    if step.BeginOp? || step.EndOp? || step.LogWrite? || step.Crash? {
      hide GoodDisk, Durable;
    } else {
      OpsSame(L, s, step);
      hide Apply, Enabled;
    }
  }

  lemma OpsSame(L: Layout, s: Sys, step: Step)
    requires Enabled(L, s, step) && !step.BeginOp? && !step.EndOp? && !step.LogWrite? && !step.Crash?
    ensures Apply(L, s, step).ops == s.ops
  {
    hide LoggerUses, HeaderCount, HeaderBlocks, EncodeHeader;
  }

  lemma {:induction false} RunSnoc(L: Layout, s: Sys, steps: seq<Step>)
    requires Runs(L, s, steps) && steps != []
    ensures var n := |steps| - 1;
      && Runs(L, s, steps[..n]) && Enabled(L, After(L, s, steps[..n]), steps[n])
      && After(L, s, steps) == Apply(L, After(L, s, steps[..n]), steps[n])
    decreases |steps|
  {
    hide Enabled, Apply;
    var n := |steps| - 1;
    if n == 0 {
      assert steps[..n] == [] && steps[1..] == [];
    } else {
      RunSnoc(L, Apply(L, s, steps[0]), steps[1..]);
      assert steps[..n][1..] == steps[1..][..n - 1];
    }
  }

  /** In every run exactly the operations between their begin_op and their end_op count as outstanding. */
  lemma {:induction false} OutstandingExactly(L: Layout, d: Disk, bufs: seq<Buf>, steps: seq<Step>, op: nat)
    requires GoodDisk(L, d) && Runs(L, Booted(L, d, bufs), steps)
    ensures op in After(L, Booted(L, d, bufs), steps).ops <==> Outstanding(steps, op)
    decreases |steps|
  {
    if steps != [] {
      hide Enabled, Apply;
      var n := |steps| - 1;
      RunSnoc(L, Booted(L, d, bufs), steps);
      OutstandingExactly(L, d, bufs, steps[..n], op);
      OpsAfter(L, After(L, Booted(L, d, bufs), steps[..n]), steps[n], op);
    }
  }

  // ---------- how long it takes ----------

  predicate CommitStep(step: Step) {
    step.LoadHead? || step.Bwrite? || step.Advance?
  }

  /** The steps of the commit code that are left until log.committing is cleared. */
  ghost function Left(L: Layout, s: Sys): int
    requires GoodDisk(L, s.disk)
  {
    match s.commit.pc
    case Idle => 0
    case Closing => 1
    case ClearHead => 2
    case Install => |s.lh| - s.commit.tail + 3
    case WriteHead => |s.lh| + 4
    case WriteLog => 2 * |s.lh| - s.commit.tail + 5
    case ReadHead => HeaderCount(s.disk[L.logstart]) + 4
  }

  // What is left after a step: one less after a step of the commit code; a commit of n blocks begins with
  // 2 * n + 5 steps, and an empty one with a single step.
  ghost function LeftNext(L: Layout, s: Sys, step: Step): int
    requires GoodDisk(L, s.disk)
  {
    if CommitStep(step) then Left(L, s) - 1
    else if step.EndOp? && s.ops.Keys == {step.op} then (if s.lh == [] then 1 else 2 * |s.lh| + 5)
    else Left(L, s)
  }

  /** Every step of the commit code brings the end one step nearer, and only the last end_op and a crash
      start it anew; the end is reached exactly when nothing is left. */
  lemma LeftExactly(L: Layout, s: Sys, step: Step)
    requires Inv(L, s) && Enabled(L, s, step) && !step.Crash?
    ensures GoodDisk(L, s.disk) && GoodDisk(L, Apply(L, s, step).disk)
    ensures Left(L, Apply(L, s, step)) == LeftNext(L, s, step)
    ensures Left(L, s) >= 0 && (Left(L, s) == 0 <==> s.commit.pc == Idle)
  {
    hide Inv, GoodDisk, Enabled, Apply, Left, LeftNext;
    StepInv(L, s, step);
    InvGood(L, s);
    InvGood(L, Apply(L, s, step));
    LeftNatural(L, s);
    if step.LoadHead? {
      LeftLoad(L, s, step.sid);
    } else if step.EndOp? {
      LeftEnd(L, s, step.op);
    } else if step.Bwrite? {
      LeftBwrite(L, s);
    } else if step.Advance? {
      LeftAdvance(L, s);
    } else {
      LeftOther(L, s, step);
    }
  }

  lemma LeftLoad(L: Layout, s: Sys, k: nat)
    requires Inv(L, s) && Enabled(L, s, LoadHead(k)) && GoodDisk(L, s.disk) && GoodDisk(L, Apply(L, s, LoadHead(k)).disk)
    ensures Left(L, Apply(L, s, LoadHead(k))) == LeftNext(L, s, LoadHead(k))
  {
    hide Inv, GoodDisk;
    HeaderRead(L, s, k);
  }

  lemma LeftEnd(L: Layout, s: Sys, op: nat)
    requires Inv(L, s) && Enabled(L, s, EndOp(op)) && GoodDisk(L, s.disk) && GoodDisk(L, Apply(L, s, EndOp(op)).disk)
    ensures Left(L, Apply(L, s, EndOp(op))) == LeftNext(L, s, EndOp(op))
  {
    hide Inv, GoodDisk;
    EndsOps(s.ops, op);
    IdleWithOps(L, s);
  }

  lemma EndsOps(ops: map<nat, nat>, op: nat)
    requires op in ops
    ensures |ops - {op}| == 0 <==> ops.Keys == {op}
  {
    assert (ops - {op}).Keys == ops.Keys - {op};
    if |ops - {op}| == 0 { assert (ops - {op}).Keys == {}; }
  }

  lemma LeftNatural(L: Layout, s: Sys)
    requires Inv(L, s) && GoodDisk(L, s.disk)
    ensures Left(L, s) >= 0 && (Left(L, s) == 0 <==> s.commit.pc == Idle)
  {
  }

  lemma IdleWithOps(L: Layout, s: Sys)
    requires Inv(L, s) && s.ops != map[]
    ensures s.commit.pc == Idle
  {
  }

  lemma LeftOther(L: Layout, s: Sys, step: Step)
    requires Inv(L, s) && Enabled(L, s, step) && GoodDisk(L, s.disk) && GoodDisk(L, Apply(L, s, step).disk)
    requires !CommitStep(step) && !step.Crash? && !step.EndOp?
    ensures Left(L, Apply(L, s, step)) == LeftNext(L, s, step)
  {
    hide Inv, GoodDisk, Enabled, Apply, HeaderCount;
    StepKeeps(L, s, step);
  }

  lemma LeftBwrite(L: Layout, s: Sys)
    requires Enabled(L, s, Bwrite) && GoodDisk(L, s.disk) && GoodDisk(L, Apply(L, s, Bwrite).disk)
    ensures Left(L, Apply(L, s, Bwrite)) == LeftNext(L, s, Bwrite)
  {
    hide GoodDisk, HeaderCount;
  }

  lemma LeftAdvance(L: Layout, s: Sys)
    requires Inv(L, s) && Enabled(L, s, Advance) && GoodDisk(L, s.disk) && GoodDisk(L, Apply(L, s, Advance).disk)
    ensures Left(L, Apply(L, s, Advance)) == LeftNext(L, s, Advance)
  {
    hide GoodDisk, HeaderCount, Inv;
    TailIn(L, s);
    assert Apply(L, s, Advance) == DoAdvance(s) && CanAdvance(s);
    hide Apply, Enabled;
  }

  lemma TailIn(L: Layout, s: Sys)
    requires Inv(L, s)
    ensures s.commit.tail <= |s.lh| && (s.commit.pc == ClearHead || s.commit.pc == Closing ==> s.lh == [])
  {
  }

  // A step of a client does not move the commit code; log_write runs only when it is idle.
  lemma StepKeeps(L: Layout, s: Sys, step: Step)
    requires Inv(L, s) && Enabled(L, s, step) && !CommitStep(step) && !step.Crash? && !step.EndOp?
    ensures var s' := Apply(L, s, step);
      s'.disk == s.disk && s'.commit.pc == s.commit.pc && (s.commit.pc != Idle ==> s'.lh == s.lh && s'.commit.tail == s.commit.tail)
  {
    if step.LogWrite? {
      assert s.sessions[step.sid].role.op in s.ops;
      IdleWithOps(L, s);
    }
    hide Inv;
  }

  // ---------- the buffers suffice ----------

  ghost predicate Reaches(L: Layout, s: Sys, t: Sys) {
    exists steps :: Runs(L, s, steps) && After(L, s, steps) == t
  }

  lemma ReachesSelf(L: Layout, s: Sys)
    ensures Reaches(L, s, s)
  {
    assert Runs(L, s, []) && After(L, s, []) == s;
  }

  lemma ReachesStep(L: Layout, s: Sys, step: Step, t: Sys)
    requires Enabled(L, s, step) && Reaches(L, Apply(L, s, step), t)
    ensures Reaches(L, s, t)
  {
    hide Enabled, Apply;
    var rest :| Runs(L, Apply(L, s, step), rest) && After(L, Apply(L, s, step), rest) == t;
    assert ([step] + rest)[1..] == rest;
    assert Runs(L, s, [step] + rest) && After(L, s, [step] + rest) == t;
  }

  lemma {:induction false} ReachesOn(L: Layout, s: Sys, steps: seq<Step>, u: Sys)
    requires Runs(L, s, steps) && Reaches(L, After(L, s, steps), u)
    ensures Reaches(L, s, u)
    decreases |steps|
  {
    hide Enabled, Apply;
    if steps != [] {
      ReachesOn(L, Apply(L, s, steps[0]), steps[1..], u);
      ReachesStep(L, s, steps[0], u);
    }
  }

  lemma ReachesTrans(L: Layout, s: Sys, t: Sys, u: Sys)
    requires Reaches(L, s, t) && Reaches(L, t, u)
    ensures Reaches(L, s, u)
  {
    hide Runs, After;
    var steps :| Runs(L, s, steps) && After(L, s, steps) == t;
    ReachesOn(L, s, steps, u);
  }

  // t differs from s in the buffers and their users only.
  ghost predicate SameLog(s: Sys, t: Sys) {
    t == s.(bufs := t.bufs, sessions := t.sessions) && |t.bufs| == |s.bufs|
  }

  // bget can take buffer i for block b, and nobody uses it.
  ghost predicate Usable(s: Sys, b: int, i: nat) {
    && i < |s.bufs| && Users(s, i) == {}
    && (if Cached(s, b) then HasKey(s.bufs[i], b) else s.bufs[i].refcnt == 0 && !s.bufs[i].dirty)
  }

  lemma Walk(L: Layout, s: Sys, step: Step, t: Sys)
    requires Inv(L, s) && Enabled(L, s, step) && Apply(L, s, step) == t
    ensures Inv(L, t) && Reaches(L, s, t)
  {
    StepInv(L, s, step);
    hide Inv, Enabled, Apply;
    ReachesSelf(L, t);
    ReachesStep(L, s, step, t);
  }

  // Whoever asks for the block is allowed to.
  ghost predicate MayUse(L: Layout, s: Sys, role: Role, b: int) {
    match role
    case Reader => L.Home(b) && !s.recovering
    case Op(op) => L.Home(b) && !s.recovering && op in s.ops
    case Logger => LoggerUses(L, s, b)
  }

  // A client or the commit code gets hold of a block.
  lemma Use(L: Layout, s: Sys, role: Role, b: int, k: nat, i: nat) returns (t: Sys)
    requires Inv(L, s) && k !in s.sessions && 0 <= b < L.size && MayUse(L, s, role, b) && Usable(s, b, i)
    ensures Inv(L, t) && Reaches(L, s, t) && SameLog(s, t)
    ensures t.sessions == s.sessions[k := Session(i, b, Ready, role)]
  {
    hide Inv, Reaches, MayUse, Usable, Enabled, Apply;
    var s1 := UseGets(L, s, role, b, k, i);
    Walk(L, s, Bget(k, role, b, i), s1);
    var s2 := UseLocks(L, s1, k);
    Walk(L, s1, AcquireSleep(k), s2);
    t := UseReads(L, s2, k);
    Walk(L, s2, Bread(k), t);
    ReachesTrans(L, s, s1, s2);
    ReachesTrans(L, s, s2, t);
  }

  lemma UseGets(L: Layout, s: Sys, role: Role, b: int, k: nat, i: nat) returns (t: Sys)
    requires Inv(L, s) && k !in s.sessions && 0 <= b < L.size && MayUse(L, s, role, b) && Usable(s, b, i)
    ensures Enabled(L, s, Bget(k, role, b, i)) && Apply(L, s, Bget(k, role, b, i)) == t && SameLog(s, t)
    ensures t.sessions == s.sessions[k := Session(i, b, Waiting, role)] && CanAcquire(t, k)
  {
    hide Inv, LoggerUses;
    t := DoBget(s, k, role, b, i);
    Unlocked(L, s, i);
  }

  lemma Unlocked(L: Layout, s: Sys, i: nat)
    requires Inv(L, s) && i < |s.bufs|
    ensures s.bufs[i].lock.Some? ==> s.bufs[i].lock.value in Users(s, i)
  {
    assert LockInv(s, i);
  }

  lemma UseLocks(L: Layout, s: Sys, k: nat) returns (t: Sys)
    requires CanAcquire(s, k)
    ensures Enabled(L, s, AcquireSleep(k)) && Apply(L, s, AcquireSleep(k)) == t && SameLog(s, t)
    ensures t.sessions == s.sessions[k := s.sessions[k].(phase := Locked)]
  {
    t := DoAcquire(s, k);
  }

  lemma UseReads(L: Layout, s: Sys, k: nat) returns (t: Sys)
    requires Inv(L, s) && k in s.sessions && s.sessions[k].phase == Locked
    ensures Enabled(L, s, Bread(k)) && Apply(L, s, Bread(k)) == t && SameLog(s, t)
    ensures t.sessions == s.sessions[k := s.sessions[k].(phase := Ready)]
  {
    hide Inv;
    SessionFacts(L, s, k);
    t := DoBread(s, k);
  }

  lemma SessionFacts(L: Layout, s: Sys, k: nat)
    requires Inv(L, s) && k in s.sessions
    ensures s.sessions[k].buf < |s.bufs| && HasKey(s.bufs[s.sessions[k].buf], s.sessions[k].blockno)
    ensures 0 <= s.sessions[k].blockno < |s.disk| == L.size
  {
    assert SessionInv(L, s, k);
  }

  // And lets go of it.
  lemma LetGo(L: Layout, s: Sys, k: nat) returns (t: Sys)
    requires Inv(L, s) && k in s.sessions && s.sessions[k].phase == Ready && s.commit.cur != Some(k)
    ensures Inv(L, t) && Reaches(L, s, t) && SameLog(s, t) && t.sessions == s.sessions - {k}
  {
    hide Inv, Reaches, Enabled, Apply;
    var s1 := Unlock(L, s, k);
    Walk(L, s, ReleaseSleep(k), s1);
    t := Unref(L, s1, k);
    Walk(L, s1, Step.Unref(k), t);
    ReachesTrans(L, s, s1, t);
    assert t.sessions == s.sessions - {k};
  }

  lemma Unlock(L: Layout, s: Sys, k: nat) returns (t: Sys)
    requires Inv(L, s) && k in s.sessions && s.sessions[k].phase == Ready && s.commit.cur != Some(k)
    ensures Enabled(L, s, ReleaseSleep(k)) && Apply(L, s, ReleaseSleep(k)) == t && SameLog(s, t)
    ensures t.sessions == s.sessions[k := s.sessions[k].(phase := Released)]
  {
    hide Inv;
    SessionFacts(L, s, k);
    t := DoRelease(s, k);
  }

  lemma Unref(L: Layout, s: Sys, k: nat) returns (t: Sys)
    requires Inv(L, s) && k in s.sessions && s.sessions[k].phase == Released
    ensures Enabled(L, s, Step.Unref(k)) && Apply(L, s, Step.Unref(k)) == t && SameLog(s, t) && t.sessions == s.sessions - {k}
  {
    hide Inv, Users;
    Counted(L, s, k);
    t := DoUnref(s, k);
  }

  lemma Counted(L: Layout, s: Sys, k: nat)
    requires Inv(L, s) && k in s.sessions && s.sessions[k].phase == Released
    ensures CanUnref(s, k)
  {
    assert SessionInv(L, s, k);
    var i := s.sessions[k].buf;
    assert k in Users(s, i);
    assert s.bufs[i].refcnt == |Users(s, i)|;
  }

  // ---------- finding a buffer ----------

  // Only the commit code uses buffers, and it is between two writes.
  ghost predicate Resting(L: Layout, s: Sys) {
    Inv(L, s) && s.sessions == map[] && s.commit.cur == None
  }

  /** One buffer more than blocks are pinned; recovery pins none, and needs two at a time. */
  predicate Spare(s: Sys) {
    |s.bufs| > if s.recovering then 1 else |s.lh|
  }

  ghost function DirtyOnes(s: Sys, n: nat): set<int>
    requires n <= |s.bufs|
  {
    set i: nat | i < n && s.bufs[i].dirty :: s.bufs[i].blockno
  }

  // Dirty buffers hold different pending blocks, so there are no more of them than entries in the log.
  lemma {:induction false} CountDirty(s: Sys, n: nat)
    requires KeysInv(s) && DirtyInv(s) && n <= |s.bufs| && forall i :: 0 <= i < n ==> s.bufs[i].dirty
    ensures |DirtyOnes(s, n)| == n && forall b :: b in DirtyOnes(s, n) ==> b in s.lh
  {
    if n == 0 {
      assert DirtyOnes(s, 0) == {};
    } else {
      CountDirty(s, n - 1);
      DirtyPending(s, n - 1);
      DirtyApart(s, n - 1);
      hide KeysInv, DirtyInv;
      assert DirtyOnes(s, n) == DirtyOnes(s, n - 1) + {s.bufs[n - 1].blockno};
    }
  }

  lemma DirtyPending(s: Sys, i: nat)
    requires DirtyInv(s) && i < |s.bufs| && s.bufs[i].dirty
    ensures s.bufs[i].blockno in s.lh && s.bufs[i].dev == DEV && !s.recovering
  {
    assert DirtyOk(s, s.bufs[i]);
  }

  lemma DirtyApart(s: Sys, n: nat)
    requires KeysInv(s) && DirtyInv(s) && n < |s.bufs| && s.bufs[n].dirty
    ensures forall i :: 0 <= i < n && s.bufs[i].dirty ==> s.bufs[i].blockno != s.bufs[n].blockno
  {
    DirtyPending(s, n);
    forall i | 0 <= i < n && s.bufs[i].dirty ensures s.bufs[i].blockno != s.bufs[n].blockno {
      DirtyPending(s, i);
      assert !HasKey(s.bufs[n], s.bufs[i].blockno);
    }
  }

  ghost function ToSet(q: seq<int>): set<int> {
    set b | b in q
  }

  lemma {:induction false} ToSetSize(q: seq<int>)
    ensures |ToSet(q)| <= |q|
  {
    if q == [] {
      assert ToSet(q) == {};
    } else {
      ToSetSize(q[1..]);
      assert ToSet(q) == ToSet(q[1..]) + {q[0]};
    }
  }

  lemma SetInSeq(x: set<int>, q: seq<int>)
    requires forall b :: b in x ==> b in q
    ensures |x| <= |q|
  {
    ToSetSize(q);
    forall b | b in x ensures b in ToSet(q) { assert b in q; }
    assert ToSet(q) == x + (ToSet(q) - x);
  }

  lemma SomeClean(L: Layout, s: Sys) returns (i: nat)
    requires Inv(L, s) && Spare(s)
    ensures i < |s.bufs| && !s.bufs[i].dirty
  {
    AllDirty(L, s);
    i :| 0 <= i < |s.bufs| && !s.bufs[i].dirty;
  }

  lemma AllDirty(L: Layout, s: Sys)
    requires Inv(L, s) && |s.bufs| > 0
    ensures (forall j :: 0 <= j < |s.bufs| ==> s.bufs[j].dirty) ==> |s.bufs| <= |s.lh| && !s.recovering
  {
    if forall j :: 0 <= j < |s.bufs| ==> s.bufs[j].dirty {
      CountDirty(s, |s.bufs|);
      SetInSeq(DirtyOnes(s, |s.bufs|), s.lh);
      DirtyPending(s, 0);
    }
  }

  lemma NobodyUses(L: Layout, s: Sys, i: nat)
    requires Inv(L, s) && i < |s.bufs| && forall k :: k in s.sessions ==> s.sessions[k].buf != i
    ensures Users(s, i) == {} && s.bufs[i].refcnt == 0
  {
    assert Users(s, i) == {};
    assert s.bufs[i].refcnt == |Users(s, i)|;
  }

  // The first block of a copy: any buffer will do.
  lemma FirstBuffer(L: Layout, s: Sys, b: int) returns (i: nat)
    requires Resting(L, s) && Spare(s)
    ensures Usable(s, b, i)
  {
    if Cached(s, b) {
      i :| 0 <= i < |s.bufs| && HasKey(s.bufs[i], b);
    } else {
      i := SomeClean(L, s);
    }
    hide Inv;
    NobodyUses(L, s, i);
  }

  // The second one: while k uses another block, this one is cached, or no buffer is pinned.
  lemma SecondBuffer(L: Layout, s: Sys, b: int, k: nat) returns (i: nat)
    requires Inv(L, s) && s.sessions.Keys == {k} && s.sessions[k].blockno != b
    requires Cached(s, b) || (s.recovering && |s.bufs| > 1)
    ensures Usable(s, b, i)
  {
    if Cached(s, b) {
      i :| 0 <= i < |s.bufs| && HasKey(s.bufs[i], b);
      SessionFacts(L, s, k);
    } else {
      i := if s.sessions[k].buf == 0 then 1 else 0;
      assert DirtyOk(s, s.bufs[i]);
    }
    hide Inv;
    NobodyUses(L, s, i);
  }

  // ---------- turns of the commit code ----------

  lemma FillWrite(L: Layout, s: Sys, to: nat, from: nat) returns (t: Sys)
    requires Inv(L, s) && CanFill(L, s, to, from)
    ensures Inv(L, t) && Reaches(L, s, t) && |t.bufs| == |s.bufs| && t.commit == AfterBwrite(s.commit)
    ensures t == s.(disk := t.disk, bufs := t.bufs, commit := t.commit)
  {
    hide Inv, Reaches, Enabled, Apply;
    var s1 := Fills(L, s, to, from);
    Walk(L, s, Fill(to, from), s1);
    SessionFacts(L, s1, to);
    t := Writes(L, s1, to);
    Walk(L, s1, Bwrite, t);
    ReachesTrans(L, s, s1, t);
  }

  lemma Fills(L: Layout, s: Sys, to: nat, from: nat) returns (t: Sys)
    requires CanFill(L, s, to, from)
    ensures Enabled(L, s, Fill(to, from)) && Apply(L, s, Fill(to, from)) == t && |t.bufs| == |s.bufs|
    ensures t == s.(bufs := t.bufs, commit := s.commit.(cur := Some(to))) && Writing(s.commit.pc) && to in t.sessions
  {
    t := DoFill(s, to, from);
  }

  lemma Writes(L: Layout, s: Sys, k: nat) returns (t: Sys)
    requires Writing(s.commit.pc) && s.commit.cur == Some(k) && k in s.sessions && s.sessions[k].buf < |s.bufs|
    requires HasKey(s.bufs[s.sessions[k].buf], s.sessions[k].blockno) && 0 <= s.sessions[k].blockno < |s.disk|
    ensures Enabled(L, s, Bwrite) && Apply(L, s, Bwrite) == t && |t.bufs| == |s.bufs|
    ensures t == s.(disk := t.disk, bufs := t.bufs, commit := AfterBwrite(s.commit))
  {
    t := DoBwrite(s);
  }

  // What a turn of the commit code leaves: no buffer in use, and the next point of the program.
  ghost predicate Turned(L: Layout, s: Sys, t: Sys) {
    && Resting(L, t) && t.ops == s.ops && t.view == s.view && |t.bufs| == |s.bufs|
  }

  lemma InCopy(L: Layout, s: Sys)
    requires Inv(L, s) && (s.commit.pc == WriteLog || s.commit.pc == Install) && s.commit.tail < |s.lh|
    ensures var log, home := L.LogBlock(s.commit.tail), s.lh[s.commit.tail];
      && 0 <= log < L.size && 0 <= home < L.size && log != home
      && LoggerUses(L, s, log) && LoggerUses(L, s, home) && (s.recovering || Cached(s, home))
  {
    var home := s.lh[s.commit.tail];
    if !s.recovering {
      assert home in Pending(s) by {
        if s.commit.pc == Install { assert s.lh[s.commit.tail..][0] == home; }
      }
      var i := PinnedIn(L, s, home);
    }
  }

  // One turn of write_log or install_trans.
  lemma CopyTurn(L: Layout, s: Sys) returns (t: Sys)
    requires Resting(L, s) && Spare(s) && (s.commit.pc == WriteLog || s.commit.pc == Install) && s.commit.tail < |s.lh|
    ensures Reaches(L, s, t) && Turned(L, s, t) && t.lh == s.lh && t.recovering == s.recovering
    ensures t.commit == Commit(s.commit.pc, s.commit.tail + 1, None)
  {
    hide Inv, Reaches, LoggerUses, Usable, Enabled, Apply, Cached;
    var log, home := L.LogBlock(s.commit.tail), s.lh[s.commit.tail];
    InCopy(L, s);
    var i := FirstBuffer(L, s, log);
    var s1 := Use(L, s, Logger, log, 0, i);
    InCopy(L, s1);
    var j := SecondBuffer(L, s1, home, 0);
    var s2 := Use(L, s1, Logger, home, 1, j);
    SessionFacts(L, s2, 0);
    SessionFacts(L, s2, 1);
    var to, from := if s.commit.pc == WriteLog then 0 else 1, if s.commit.pc == WriteLog then 1 else 0;
    var s3 := FillWrite(L, s2, to, from);
    var s4 := LetGo(L, s3, 0);
    t := LetGo(L, s4, 1);
    assert t.sessions == map[];
    ReachesTrans(L, s, s1, s2);
    ReachesTrans(L, s, s2, s3);
    ReachesTrans(L, s, s3, s4);
    ReachesTrans(L, s, s4, t);
  }

  lemma HeaderUsed(L: Layout, s: Sys)
    requires Inv(L, s) && (s.commit.pc == WriteHead || s.commit.pc == ClearHead || s.commit.pc == ReadHead)
    ensures 0 <= L.logstart < L.size && LoggerUses(L, s, L.logstart)
  {
  }

  // write_head.
  lemma HeadTurn(L: Layout, s: Sys) returns (t: Sys)
    requires Resting(L, s) && Spare(s) && (s.commit.pc == WriteHead || s.commit.pc == ClearHead)
    ensures Reaches(L, s, t) && Turned(L, s, t) && t.lh == s.lh && t.recovering == s.recovering
    ensures t.commit == AfterBwrite(s.commit)
  {
    hide Inv, Reaches, LoggerUses, Usable, Enabled, Apply;
    HeaderUsed(L, s);
    var i := FirstBuffer(L, s, L.logstart);
    var s1 := Use(L, s, Logger, L.logstart, 0, i);
    SessionFacts(L, s1, 0);
    var s2 := FillWrite(L, s1, 0, 0);
    t := LetGo(L, s2, 0);
    assert t.sessions == map[];
    ReachesTrans(L, s, s1, s2);
    ReachesTrans(L, s, s2, t);
  }

  // read_head.
  lemma LoadTurn(L: Layout, s: Sys) returns (t: Sys)
    requires Resting(L, s) && Spare(s) && s.commit.pc == ReadHead
    ensures Reaches(L, s, t) && Turned(L, s, t) && t.recovering == s.recovering
    ensures t.commit == Commit(Install, 0, None) && L.logstart < |s.disk| && |t.lh| == HeaderCount(s.disk[L.logstart])
  {
    hide Inv, Reaches, LoggerUses, Usable, Enabled, Apply;
    HeaderUsed(L, s);
    var i := FirstBuffer(L, s, L.logstart);
    var s1 := Use(L, s, Logger, L.logstart, 0, i);
    var s2 := Loads(L, s1, 0);
    Walk(L, s1, LoadHead(0), s2);
    t := LetGo(L, s2, 0);
    assert t.sessions == map[];
    ReachesTrans(L, s, s1, s2);
    ReachesTrans(L, s, s2, t);
  }

  lemma Loads(L: Layout, s: Sys, k: nat) returns (t: Sys)
    requires Inv(L, s) && s.commit.pc == ReadHead && s.commit.cur == None && k in s.sessions
    requires s.sessions[k].phase == Ready && s.sessions[k].blockno == L.logstart
    ensures Enabled(L, s, LoadHead(k)) && Apply(L, s, LoadHead(k)) == t && L.logstart < |s.disk|
    ensures t == s.(lh := t.lh, commit := Commit(Install, 0, None)) && |t.lh| == HeaderCount(s.disk[L.logstart])
  {
    HeaderRead(L, s, k);
    hide Inv;
    t := DoLoadHead(L, s, k);
  }

  lemma HeaderRead(L: Layout, s: Sys, k: nat)
    requires Inv(L, s) && s.commit.pc == ReadHead && k in s.sessions
    requires s.sessions[k].phase == Ready && s.sessions[k].blockno == L.logstart
    ensures Held(s, k) && L.logstart < |s.disk| && BufOf(s, k).data == s.disk[L.logstart]
    ensures HeaderCount(s.disk[L.logstart]) < |s.disk[L.logstart].words| || HeaderCount(s.disk[L.logstart]) == 0
  {
    assert SessionInv(L, s, k);
    assert LogData(L, s, BufOf(s, k));
  }

  lemma AdvanceTurn(L: Layout, s: Sys) returns (t: Sys)
    requires Resting(L, s) && CanAdvance(s)
    ensures Reaches(L, s, t) && Turned(L, s, t) && t == DoAdvance(s)
  {
    t := DoAdvance(s);
    hide Inv, Reaches;
    Walk(L, s, Advance, t);
  }

  lemma OneTurn(L: Layout, s: Sys) returns (t: Sys)
    requires Resting(L, s) && Spare(s) && s.commit.pc != Idle && GoodDisk(L, s.disk)
    ensures Reaches(L, s, t) && Turned(L, s, t) && GoodDisk(L, t.disk) && (t.commit.pc != Idle ==> Spare(t))
    ensures 0 <= Left(L, t) < Left(L, s)
  {
    LeftNatural(L, s);
    if s.commit.pc == ReadHead {
      assert s.recovering;
      t := LoadTurn(L, s);
    } else if s.commit.pc == WriteHead || s.commit.pc == ClearHead {
      t := HeadTurn(L, s);
    } else if s.commit.pc != Closing && s.commit.tail < |s.lh| {
      t := CopyTurn(L, s);
    } else {
      t := AdvanceTurn(L, s);
    }
    InvGood(L, t);
    LeftNatural(L, t);
    hide Inv, Reaches, GoodDisk;
  }

  lemma {:induction false} Completes(L: Layout, s: Sys) returns (t: Sys)
    requires Resting(L, s) && (s.commit.pc != Idle ==> Spare(s)) && GoodDisk(L, s.disk)
    ensures Reaches(L, s, t) && Turned(L, s, t) && t.commit.pc == Idle
    decreases Left(L, s)
  {
    LeftNatural(L, s);
    hide Inv, Reaches, GoodDisk, Left;
    if s.commit.pc == Idle {
      ReachesSelf(L, s);
      t := s;
    } else {
      var s1 := OneTurn(L, s);
      t := Completes(L, s1);
      ReachesTrans(L, s, s1, t);
    }
  }

  /** Every commit and every recovery can be carried to its end with one buffer more than blocks are pinned:
      bget finds a buffer for each block of the copy loops, and afterwards all blocks are home. */
  lemma CommitCompletes(L: Layout, d: Disk, bufs: seq<Buf>, steps: seq<Step>) returns (t: Sys)
    requires GoodDisk(L, d) && Runs(L, Booted(L, d, bufs), steps)
    requires var s := After(L, Booted(L, d, bufs), steps);
      s.commit.pc != Idle && s.sessions == map[] && Spare(s)
    ensures Reaches(L, After(L, Booted(L, d, bufs), steps), t)
    ensures t.commit.pc == Idle && t.view == After(L, Booted(L, d, bufs), steps).view && AllHome(L, t)
  {
    var s := After(L, Booted(L, d, bufs), steps);
    SystemRefinesStore(L, d, bufs, steps);
    InvGood(L, s);
    NothingFilled(L, s);
    t := Completes(L, s);
    assert s.ops == map[];
    hide Inv, Reaches, AllHome;
    QuietIn(L, t);
  }

  // ---------- a whole transaction ----------

  /** With an empty log exactly three operations are admitted at a time. */
  lemma AdmitsThree(s: Sys, op: nat)
    requires s.lh == [] && s.commit.pc == Idle && op !in s.ops
    ensures CanBegin(s, op) <==> |s.ops| < 3
  {
  }

  // A client's write of one block, up to its end_op.
  lemma WriteBlock(L: Layout, s: Sys, b: int, data: Block) returns (t: Sys)
    requires Resting(L, s) && s.commit.pc == Idle && s.ops == map[] && s.lh == [] && !s.recovering
    requires L.Home(b) && 0 <= b < L.size && |s.bufs| > 1 && L.nlog > 1
    ensures Reaches(L, s, t) && Resting(L, t) && t.commit == Commit(WriteLog, 0, None) && t.lh == [b] && t.ops == map[]
    ensures t.view == s.view[b := data] && |t.bufs| == |s.bufs| && !t.recovering
  {
    hide Inv, Reaches, Usable, Enabled, Apply, Cached;
    var s1 := Begins(L, s, 0);
    Walk(L, s, BeginOp(0), s1);
    var i := FirstBuffer(L, s1, b);
    var s2 := Use(L, s1, Op(0), b, 0, i);
    SessionFacts(L, s2, 0);
    var s3, s4 := Logs(L, s2, b, data);
    Walk(L, s2, Modify(0, data), s3);
    Walk(L, s3, LogWrite(0), s4);
    var s5 := LetGo(L, s4, 0);
    assert s5.sessions == map[];
    t := Ends(L, s5);
    Walk(L, s5, EndOp(0), t);
    ReachesTrans(L, s, s1, s2);
    ReachesTrans(L, s, s2, s3);
    ReachesTrans(L, s, s3, s4);
    ReachesTrans(L, s, s4, s5);
    ReachesTrans(L, s, s5, t);
  }

  lemma Begins(L: Layout, s: Sys, op: nat) returns (t: Sys)
    requires s.commit.pc == Idle && s.ops == map[] && s.lh == []
    ensures Enabled(L, s, BeginOp(op)) && Apply(L, s, BeginOp(op)) == t && t == s.(ops := map[op := MAXOPBLOCKS])
  {
    AdmitsThree(s, op);
    t := DoBegin(s, op);
  }

  lemma Logs(L: Layout, s: Sys, b: int, data: Block) returns (s1: Sys, t: Sys)
    requires s.lh == [] && s.ops == map[0 := MAXOPBLOCKS] && L.nlog > 1 && 0 in s.sessions && s.sessions[0].buf < |s.bufs|
    requires s.sessions[0].role == Op(0) && s.sessions[0].phase == Ready && s.sessions[0].blockno == b && s.sessions.Keys == {0}
    ensures Enabled(L, s, Modify(0, data)) && Apply(L, s, Modify(0, data)) == s1
    ensures Enabled(L, s1, LogWrite(0)) && Apply(L, s1, LogWrite(0)) == t
    ensures t.lh == [b] && t.view == s.view[b := data] && t.ops == map[0 := MAXOPBLOCKS - 1]
    ensures t.sessions.Keys == {0} && t.sessions[0].phase == Ready && t.commit == s.commit
    ensures |t.bufs| == |s.bufs| && t.recovering == s.recovering
  {
    s1 := DoModify(s, 0, data);
    t := DoLogWrite(s1, 0);
  }

  lemma Ends(L: Layout, s: Sys) returns (t: Sys)
    requires s.ops.Keys == {0} && s.sessions == map[] && |s.lh| > 0
    ensures Enabled(L, s, EndOp(0)) && Apply(L, s, EndOp(0)) == t
    ensures t == s.(ops := map[], commit := Commit(WriteLog, 0, None))
  {
    EndsOps(s.ops, 0);
    assert s.ops - {0} == map[];
    t := DoEnd(s, 0);
  }

  /** A client's write reaches the disk: in every run, from a quiet moment, an operation can write any home
      block with any contents, and its commit can leave exactly that change in the home blocks. */
  lemma WriteBecomesDurable(L: Layout, d: Disk, bufs: seq<Buf>, steps: seq<Step>, b: int, data: Block) returns (t: Sys)
    requires GoodDisk(L, d) && Runs(L, Booted(L, d, bufs), steps) && L.Home(b) && 0 <= b < L.size && L.nlog > 1
    requires var s := After(L, Booted(L, d, bufs), steps);
      s.commit.pc == Idle && s.ops == map[] && s.sessions == map[] && |s.bufs| > 1
    ensures Reaches(L, After(L, Booted(L, d, bufs), steps), t) && AllHome(L, t) && t.commit.pc == Idle
    ensures t.view == After(L, Booted(L, d, bufs), steps).view[b := data] && t.disk[b] == data
  {
    var s := After(L, Booted(L, d, bufs), steps);
    SystemRefinesStore(L, d, bufs, steps);
    QuietIn(L, s);
    NothingFilled(L, s);
    hide Inv, Reaches, Runs, After;
    var s1 := WriteBlock(L, s, b, data);
    InvGood(L, s1);
    t := Completes(L, s1);
    QuietIn(L, t);
    ReachesTrans(L, s, s1, t);
    assert b in HomeOf(L, t.disk);
  }

  lemma NothingFilled(L: Layout, s: Sys)
    requires Inv(L, s) && s.sessions == map[]
    ensures s.commit.cur == None && (s.commit.pc == Idle ==> !s.recovering)
  {
  }
}
