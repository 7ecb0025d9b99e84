/** The process table of proc.c. Every step below is one critical section under ptable.lock, or one
    of the single writes that fork makes outside it, so the invariant speaks about every moment at
    which ptable.lock is free. */
module ProcTable {
  import opened Wrappers

  datatype State = Unused | Embryo | Sleeping | Runnable | Running | Zombie

  // Sleep channels: the address of a process slot, used by wait, or anything else.
  datatype Chan = SlotAddr(slot: nat) | OtherAddr(addr: int)

  // child is the local variable np of a process inside fork.
  datatype Proc = Proc(state: State, pid: int, parent: Option<nat>, chan: Option<Chan>, killed: bool, child: Option<nat>)

  type Table = seq<Proc>

  datatype Sys = Sys(procs: Table, nextpid: int, init: nat)

  // ---------- critical sections, as functions of the table ----------

  /** wakeup1 */
  function WakeAll(ps: Table, c: Chan): (r: Table)
    ensures |r| == |ps|
  {
    seq(|ps|, i requires 0 <= i < |ps| =>
      if ps[i].state == Sleeping && ps[i].chan == Some(c) then ps[i].(state := Runnable) else ps[i])
  }

  // The reparenting loop of exit over the first n slots.
  function Reparent(ps: Table, cur: nat, init: nat, n: nat): (r: Table)
    requires n <= |ps|
    ensures |r| == |ps|
  {
    if n == 0 then ps else
      var r := Reparent(ps, cur, init, n - 1);
      if r[n - 1].parent != Some(cur) then r else
        var r' := r[n - 1 := r[n - 1].(parent := Some(init))];
        if r[n - 1].state == Zombie then WakeAll(r', SlotAddr(init)) else r'
  }

  /** exit, from acquiring ptable.lock on */
  function ExitTable(ps: Table, cur: nat, init: nat): (r: Table)
    requires cur < |ps| && ps[cur].parent.Some?
  {
    var r := Reparent(WakeAll(ps, SlotAddr(ps[cur].parent.value)), cur, init, |ps|);
    r[cur := r[cur].(state := Zombie)]
  }

  predicate ZombieChild(ps: Table, cur: nat, i: nat) {
    i < |ps| && ps[i].parent == Some(cur) && ps[i].state == Zombie
  }

  predicate HasChild(ps: Table, cur: nat) {
    exists i :: 0 <= i < |ps| && ps[i].parent == Some(cur)
  }

  // wait clears the slot of the child it found.
  function Reaped(p: Proc): Proc {
    p.(state := Unused, pid := 0, parent := None, killed := false)
  }

  // ---------- the transition system ----------

  datatype Step =
    | Alloc(cur: nat, slot: nat)   // allocproc finds the first unused slot
    | AllocFail(cur: nat)          // no memory for the stack or the address space
    | Adopt(cur: nat)              // np->parent = curproc
    | ForkDone(cur: nat)           // np->state = RUNNABLE
    | Exit(cur: nat)
    | WaitReap(cur: nat, slot: nat)
    | WaitSleep(cur: nat)
    | Sleep(cur: nat, addr: int)
    | Wakeup(addr: int)
    | Kill(slot: nat)              // kill finds the first slot with the pid
    | Schedule(slot: nat)
    | Yield(cur: nat)

  // cur is executing in the kernel and is not in the middle of fork.
  predicate Free(s: Sys, cur: nat) {
    cur < |s.procs| && s.procs[cur].state == Running && s.procs[cur].child == None
  }

  predicate Forking(s: Sys, cur: nat) {
    cur < |s.procs| && s.procs[cur].state == Running && s.procs[cur].child.Some? && s.procs[cur].child.value < |s.procs|
  }

  predicate Enabled(s: Sys, step: Step) {
    match step
    case Alloc(cur, slot) =>
      Free(s, cur) && slot < |s.procs| && s.procs[slot].state == Unused
      && forall i :: 0 <= i < slot ==> s.procs[i].state != Unused
    case AllocFail(cur) => Forking(s, cur) && s.procs[s.procs[cur].child.value].parent == None
    case Adopt(cur) => Forking(s, cur)
    case ForkDone(cur) => Forking(s, cur) && s.procs[s.procs[cur].child.value].parent == Some(cur)
    case Exit(cur) => Free(s, cur) && cur != s.init && s.procs[cur].parent.Some?
    case WaitReap(cur, slot) =>
      Free(s, cur) && ZombieChild(s.procs, cur, slot) && forall i :: 0 <= i < slot ==> !ZombieChild(s.procs, cur, i)
    case WaitSleep(cur) =>
      Free(s, cur) && (forall i :: 0 <= i < |s.procs| ==> !ZombieChild(s.procs, cur, i))
      && HasChild(s.procs, cur) && !s.procs[cur].killed
    case Sleep(cur, _) => cur < |s.procs| && s.procs[cur].state == Running
    case Wakeup(_) => true
    case Kill(slot) => slot < |s.procs| && forall i :: 0 <= i < slot ==> s.procs[i].pid != s.procs[slot].pid
    case Schedule(slot) => slot < |s.procs| && s.procs[slot].state == Runnable
    case Yield(cur) => cur < |s.procs| && s.procs[cur].state == Running
  }

  function Set(s: Sys, i: nat, p: Proc): Sys
    requires i < |s.procs|
  {
    s.(procs := s.procs[i := p])
  }

  function KillProc(p: Proc): Proc {
    p.(killed := true, state := if p.state == Sleeping then Runnable else p.state)
  }

  function Apply(s: Sys, step: Step): Sys
    requires Enabled(s, step)
  {
    match step
    case Alloc(cur, slot) =>
      Set(Set(s, slot, s.procs[slot].(state := Embryo, pid := s.nextpid)).(nextpid := s.nextpid + 1),
          cur, s.procs[cur].(child := Some(slot)))
    case AllocFail(cur) =>
      var c := s.procs[cur].child.value;
      Set(Set(s, c, s.procs[c].(state := Unused)), cur, s.procs[cur].(child := None))
    case Adopt(cur) =>
      var c := s.procs[cur].child.value;
      Set(s, c, s.procs[c].(parent := Some(cur)))
    case ForkDone(cur) =>
      var c := s.procs[cur].child.value;
      Set(Set(s, c, s.procs[c].(state := Runnable)), cur, s.procs[cur].(child := None))
    case Exit(cur) => s.(procs := ExitTable(s.procs, cur, s.init))
    case WaitReap(cur, slot) => Set(s, slot, Reaped(s.procs[slot]))
    case WaitSleep(cur) => Set(s, cur, s.procs[cur].(state := Sleeping, chan := Some(SlotAddr(cur))))
    case Sleep(cur, a) => Set(s, cur, s.procs[cur].(state := Sleeping, chan := Some(OtherAddr(a))))
    case Wakeup(a) => s.(procs := WakeAll(s.procs, OtherAddr(a)))
    case Kill(slot) => Set(s, slot, KillProc(s.procs[slot]))
    case Schedule(slot) => Set(s, slot, s.procs[slot].(state := Running, chan := None))
    case Yield(cur) => Set(s, cur, s.procs[cur].(state := Runnable))
  }

  // ---------- the invariant ----------

  // Alive in the sense of the scheduler: neither a free slot nor dead nor half built.
  predicate Active(st: State) {
    st == Sleeping || st == Runnable || st == Running
  }

  ghost predicate ParentInv(s: Sys, i: nat)
    requires i < |s.procs|
  {
    && ((Active(s.procs[i].state) || s.procs[i].state == Zombie) && i != s.init ==>
          s.procs[i].parent.Some? && s.procs[i].parent.value != i && ActiveAt(s, s.procs[i].parent.value))
    && (s.procs[i].state == Unused ==> s.procs[i].parent == None)
    && (s.procs[i].state == Embryo && s.procs[i].parent.Some? ==>
          ActiveAt(s, s.procs[i].parent.value) && s.procs[s.procs[i].parent.value].child == Some(i))
  }

  ghost predicate ActiveAt(s: Sys, i: nat) {
    i < |s.procs| && Active(s.procs[i].state)
  }

  // A process inside fork is alive, and its half-built child is its own.
  ghost predicate ChildInv(s: Sys, i: nat)
    requires i < |s.procs|
  {
    s.procs[i].child.Some? ==>
      var c := s.procs[i].child.value;
      && Active(s.procs[i].state) && c < |s.procs| && s.procs[c].state == Embryo
      && (s.procs[c].parent == None || s.procs[c].parent == Some(i))
  }

  // wait sleeps on the slot of the waiter, and not while a child is there to be reaped.
  ghost predicate WaitInv(s: Sys, i: nat)
    requires i < |s.procs|
  {
    s.procs[i].state == Sleeping && s.procs[i].chan.Some? && s.procs[i].chan.value.SlotAddr? ==>
      s.procs[i].chan == Some(SlotAddr(i)) && forall j :: 0 <= j < |s.procs| ==> !ZombieChild(s.procs, i, j)
  }

  ghost predicate Inv(s: Sys) {
    && s.init < |s.procs| && Active(s.procs[s.init].state) && s.procs[s.init].parent == None
    && (forall i :: 0 <= i < |s.procs| ==> ParentInv(s, i))
    && (forall i :: 0 <= i < |s.procs| ==> ChildInv(s, i))
    && (forall i, j :: 0 <= i < j < |s.procs| && s.procs[i].child.Some? ==> s.procs[i].child != s.procs[j].child)
    && (forall i :: 0 <= i < |s.procs| ==> WaitInv(s, i))
    && PidInv(s)
  }

  ghost predicate PidInv(s: Sys) {
    && 0 < s.nextpid
    && (forall i :: 0 <= i < |s.procs| && s.procs[i].state != Unused ==> 0 < s.procs[i].pid < s.nextpid)
    && (forall i, j :: 0 <= i < j < |s.procs| && s.procs[i].state != Unused && s.procs[j].state != Unused ==>
          s.procs[i].pid != s.procs[j].pid)
  }

  /** The table after userinit: one process, in the first slot. */
  function Booted(n: nat): Sys
    requires n > 0
  {
    Sys([Proc(Runnable, 1, None, None, false, None)] + seq(n - 1, _ => Proc(Unused, 0, None, None, false, None)), 2, 0)
  }

  lemma BootInv(n: nat)
    requires n > 0
    ensures Inv(Booted(n))
  {
  }

  // ---------- exit ----------

  lemma {:induction false} ReparentAt(ps: Table, cur: nat, init: nat, n: nat, i: nat)
    requires n <= |ps| && i < |ps|
    ensures var p, r := ps[i], Reparent(ps, cur, init, n)[i];
      && r.parent == (if i < n && p.parent == Some(cur) then Some(init) else p.parent)
      && r.pid == p.pid && r.chan == p.chan && r.killed == p.killed && r.child == p.child
      && r.state == (if p.state == Sleeping && p.chan == Some(SlotAddr(init)) && LeavesZombie(ps, cur, n) then Runnable else p.state)
  {
    if n > 0 {
      ReparentAt(ps, cur, init, n - 1, i);
      ReparentAt(ps, cur, init, n - 1, n - 1);
      assert LeavesZombie(ps, cur, n) <==> LeavesZombie(ps, cur, n - 1) || ZombieChild(ps, cur, n - 1);
    }
  }

  // One of the first n slots holds a dead child of cur.
  ghost predicate LeavesZombie(ps: Table, cur: nat, n: nat) {
    exists j: nat :: j < n && ZombieChild(ps, cur, j)
  }

  // How exit changes the process in slot i.
  ghost predicate ExitEffect(s: Sys, cur: nat, p: Proc, r: Proc, i: nat)
    requires cur < |s.procs| && s.procs[cur].parent.Some?
  {
    && r.parent == (if p.parent == Some(cur) then Some(s.init) else p.parent)
    && r.pid == p.pid && r.chan == p.chan && r.child == p.child && r.killed == p.killed
    && r.state == if i == cur then Zombie else if p.state == Sleeping && ExitWakes(s, cur, p) then Runnable else p.state
  }

  // exit wakes its parent from wait, and init if it leaves a dead child to it.
  ghost predicate ExitWakes(s: Sys, cur: nat, p: Proc)
    requires cur < |s.procs| && s.procs[cur].parent.Some?
  {
    || p.chan == Some(SlotAddr(s.procs[cur].parent.value))
    || (p.chan == Some(SlotAddr(s.init)) && LeavesZombie(s.procs, cur, |s.procs|))
  }

  lemma ExitEffects(s: Sys, cur: nat, i: nat)
    requires Enabled(s, Exit(cur)) && i < |s.procs|
    ensures |Apply(s, Exit(cur)).procs| == |s.procs|
    ensures ExitEffect(s, cur, s.procs[i], Apply(s, Exit(cur)).procs[i], i)
  {
    var woken := WakeAll(s.procs, SlotAddr(s.procs[cur].parent.value));
    ReparentAt(woken, cur, s.init, |s.procs|, i);
    assert forall j: nat :: j < |s.procs| ==> (ZombieChild(woken, cur, j) <==> ZombieChild(s.procs, cur, j));
  }

  lemma ExitInv(s: Sys, s': Sys, cur: nat)
    requires Inv(s) && Enabled(s, Exit(cur)) && s'.init == s.init && s'.nextpid == s.nextpid && |s'.procs| == |s.procs|
    requires forall i: nat :: i < |s.procs| ==> ExitEffect(s, cur, s.procs[i], s'.procs[i], i)
    ensures Inv(s')
  {
    ExitParents(s, s', cur);
    ExitWaits(s, s', cur);
    ExitChildren(s, s', cur);
    ExitPids(s, s', cur);
    hide ParentInv, ChildInv, WaitInv, PidInv, ExitEffect;
  }

  lemma ExitPids(s: Sys, s': Sys, cur: nat)
    requires Inv(s) && Enabled(s, Exit(cur)) && s'.nextpid == s.nextpid && |s'.procs| == |s.procs|
    requires forall i: nat :: i < |s.procs| ==> ExitEffect(s, cur, s.procs[i], s'.procs[i], i)
    ensures PidInv(s') && forall i :: 0 <= i < |s.procs| ==> s'.procs[i].child == s.procs[i].child
  {
    hide ParentInv, ChildInv, WaitInv, ExitWakes;
    assert forall i: nat :: i < |s.procs| ==> ExitEffect(s, cur, s.procs[i], s'.procs[i], i);
  }

  lemma ExitChildren(s: Sys, s': Sys, cur: nat)
    requires Inv(s) && Enabled(s, Exit(cur)) && |s'.procs| == |s.procs|
    requires forall i: nat :: i < |s.procs| ==> ExitEffect(s, cur, s.procs[i], s'.procs[i], i)
    ensures forall i :: 0 <= i < |s'.procs| ==> ChildInv(s', i)
  {
    hide ParentInv, WaitInv, PidInv;
    forall i | 0 <= i < |s'.procs| ensures ChildInv(s', i) {
      assert ChildInv(s, i) && ExitEffect(s, cur, s.procs[i], s'.procs[i], i);
      if s.procs[i].child.Some? {
        var c := s.procs[i].child.value;
        assert ExitEffect(s, cur, s.procs[c], s'.procs[c], c);
      }
    }
  }

  lemma ExitParents(s: Sys, s': Sys, cur: nat)
    requires Inv(s) && Enabled(s, Exit(cur)) && s'.init == s.init && |s'.procs| == |s.procs|
    requires forall i: nat :: i < |s.procs| ==> ExitEffect(s, cur, s.procs[i], s'.procs[i], i)
    ensures forall i :: 0 <= i < |s'.procs| ==> ParentInv(s', i)
    ensures Active(s'.procs[s'.init].state) && s'.procs[s'.init].parent == None
  {
    assert ExitEffect(s, cur, s.procs[s.init], s'.procs[s.init], s.init);
    forall i | 0 <= i < |s'.procs| ensures ParentInv(s', i) {
      assert ParentInv(s, i) && ExitEffect(s, cur, s.procs[i], s'.procs[i], i);
      if s.procs[i].parent.Some? && ActiveAt(s, s.procs[i].parent.value) {
        var p := s.procs[i].parent.value;
        assert ExitEffect(s, cur, s.procs[p], s'.procs[p], p);
      }
    }
  }

  lemma ExitWaits(s: Sys, s': Sys, cur: nat)
    requires Inv(s) && Enabled(s, Exit(cur)) && s'.init == s.init && |s'.procs| == |s.procs|
    requires forall i: nat :: i < |s.procs| ==> ExitEffect(s, cur, s.procs[i], s'.procs[i], i)
    ensures forall i :: 0 <= i < |s'.procs| ==> WaitInv(s', i)
  {
    forall i | 0 <= i < |s'.procs| ensures WaitInv(s', i) {
      assert WaitInv(s, i) && ExitEffect(s, cur, s.procs[i], s'.procs[i], i);
      forall j | 0 <= j < |s'.procs| && s'.procs[i].state == Sleeping && s'.procs[i].chan == Some(SlotAddr(i))
        ensures !ZombieChild(s'.procs, i, j)
      {
        assert ExitEffect(s, cur, s.procs[j], s'.procs[j], j);
        assert !ZombieChild(s.procs, i, j);
        assert ParentInv(s, cur);
        assert i == s.init && s.procs[j].state == Zombie ==> !ZombieChild(s.procs, cur, j);
      }
    }
  }

  // ---------- scheduling, sleeping, waking and killing ----------

  // The process stays where it is in the tree; at most it moves between the active states.
  ghost predicate Quiet(p: Proc, p': Proc) {
    && p'.parent == p.parent && p'.pid == p.pid && p'.child == p.child
    && (p'.state == p.state || (Active(p.state) && Active(p'.state)))
  }

  // The process sleeps in wait only if it did before, or has found no child to reap.
  ghost predicate WaitsFor(s: Sys, p: Proc, p': Proc, i: nat) {
    p'.state == Sleeping && p'.chan.Some? && p'.chan.value.SlotAddr? ==>
      || (p.state == Sleeping && p.chan == p'.chan)
      || (p'.chan == Some(SlotAddr(i)) && forall j :: 0 <= j < |s.procs| ==> !ZombieChild(s.procs, i, j))
  }

  lemma QuietInv(s: Sys, s': Sys)
    requires Inv(s) && s'.init == s.init && s'.nextpid == s.nextpid && |s'.procs| == |s.procs|
    requires forall i :: 0 <= i < |s.procs| ==> Quiet(s.procs[i], s'.procs[i])
    requires forall i :: 0 <= i < |s.procs| ==> WaitsFor(s, s.procs[i], s'.procs[i], i)
    ensures Inv(s')
  {
    assert Quiet(s.procs[s.init], s'.procs[s.init]);
    QuietTree(s, s');
    QuietWaits(s, s');
    hide ParentInv, ChildInv, WaitInv;
    assert forall i :: 0 <= i < |s.procs| ==> Quiet(s.procs[i], s'.procs[i]);
  }

  lemma QuietTree(s: Sys, s': Sys)
    requires Inv(s) && s'.init == s.init && |s'.procs| == |s.procs|
    requires forall i :: 0 <= i < |s.procs| ==> Quiet(s.procs[i], s'.procs[i])
    ensures forall i :: 0 <= i < |s'.procs| ==> ParentInv(s', i) && ChildInv(s', i)
  {
    hide WaitInv, PidInv;
    forall i | 0 <= i < |s'.procs| ensures ParentInv(s', i) && ChildInv(s', i) {
      assert ParentInv(s, i) && ChildInv(s, i) && Quiet(s.procs[i], s'.procs[i]);
    }
  }

  lemma QuietWaits(s: Sys, s': Sys)
    requires Inv(s) && |s'.procs| == |s.procs|
    requires forall i :: 0 <= i < |s.procs| ==> Quiet(s.procs[i], s'.procs[i])
    requires forall i :: 0 <= i < |s.procs| ==> WaitsFor(s, s.procs[i], s'.procs[i], i)
    ensures forall i :: 0 <= i < |s'.procs| ==> WaitInv(s', i)
  {
    hide ParentInv, ChildInv, PidInv;
    forall i | 0 <= i < |s'.procs| ensures WaitInv(s', i) {
      assert WaitInv(s, i) && WaitsFor(s, s.procs[i], s'.procs[i], i);
      forall j | 0 <= j < |s'.procs| ensures ZombieChild(s'.procs, i, j) == ZombieChild(s.procs, i, j) {
        assert Quiet(s.procs[j], s'.procs[j]);
      }
    }
  }

  predicate IsQuiet(step: Step) {
    step.WaitSleep? || step.Sleep? || step.Wakeup? || step.Kill? || step.Schedule? || step.Yield?
  }

  lemma QuietStep(s: Sys, step: Step)
    requires Inv(s) && Enabled(s, step) && IsQuiet(step)
    ensures Inv(Apply(s, step))
  {
    var s' := Apply(s, step);
    forall i | 0 <= i < |s.procs| ensures Quiet(s.procs[i], s'.procs[i]) && WaitsFor(s, s.procs[i], s'.procs[i], i) {
      assert WaitInv(s, i);
    }
    QuietInv(s, s');
  }

  // ---------- fork and wait ----------

  // Slot c, which is nobody's parent, changes; so does slot cur, but only in its local variable.
  ghost predicate Crafts(s: Sys, s': Sys, cur: nat, c: nat) {
    && cur < |s.procs| && c < |s.procs| && cur != c && c != s.init && |s'.procs| == |s.procs| && s'.init == s.init
    && (forall i :: 0 <= i < |s.procs| && i != c && i != cur ==> s'.procs[i] == s.procs[i])
    && s'.procs[cur] == s.procs[cur].(child := s'.procs[cur].child)
    && s.procs[cur].state == Running && !Active(s.procs[c].state) && s.procs[c].child == None && s'.procs[c].child == None
    && s'.procs[c].state != Zombie && s'.procs[c].state != Sleeping
  }

  // Nobody else has c in its hands.
  ghost predicate OwnChild(s: Sys, cur: nat, c: nat) {
    forall i :: 0 <= i < |s.procs| && i != cur ==> s.procs[i].child != Some(c)
  }

  ghost predicate CraftsChild(s: Sys, s': Sys, cur: nat, c: nat) {
    && Crafts(s, s', cur, c) && OwnChild(s, cur, c) && ParentInv(s', c) && ChildInv(s', cur)
    && (s'.procs[cur].child == s.procs[cur].child || s'.procs[cur].child == None || s'.procs[cur].child == Some(c))
    && forall i :: 0 <= i < |s.procs| && i != c && s.procs[i].state == Embryo && s.procs[i].parent == Some(cur) ==>
         s'.procs[cur].child == Some(i)
  }

  lemma CraftsInv(s: Sys, s': Sys, cur: nat, c: nat)
    requires Inv(s) && PidInv(s') && CraftsChild(s, s', cur, c)
    ensures Inv(s')
  {
    forall i | 0 <= i < |s'.procs| ensures ParentInv(s', i) && ChildInv(s', i) && WaitInv(s', i) {
      CraftsParent(s, s', cur, c, i);
      CraftsWait(s, s', cur, c, i);
    }
    hide ParentInv, ChildInv, WaitInv, PidInv;
  }

  lemma CraftsParent(s: Sys, s': Sys, cur: nat, c: nat, i: nat)
    requires Inv(s) && CraftsChild(s, s', cur, c) && i < |s'.procs|
    ensures ParentInv(s', i) && ChildInv(s', i)
  {
    hide WaitInv, PidInv;
    assert ParentInv(s, i) && ChildInv(s, i);
  }

  lemma CraftsWait(s: Sys, s': Sys, cur: nat, c: nat, i: nat)
    requires Inv(s) && CraftsChild(s, s', cur, c) && i < |s'.procs|
    ensures WaitInv(s', i)
  {
    hide ParentInv, ChildInv, PidInv;
    assert WaitInv(s, i);
    forall j | 0 <= j < |s'.procs| ensures ZombieChild(s'.procs, i, j) ==> ZombieChild(s.procs, i, j) { }
  }

  predicate IsForking(step: Step) {
    step.AllocFail? || step.Adopt? || step.ForkDone?
  }

  // A slot that is not somebody else's half-built child.
  lemma ForkFacts(s: Sys, cur: nat, c: nat)
    requires Inv(s) && cur < |s.procs| && c < |s.procs| && s.procs[cur].state == Running && !Active(s.procs[c].state)
    requires s.procs[cur].child == Some(c) || s.procs[c].state != Embryo
    ensures OwnChild(s, cur, c) && ChildInv(s, cur) && ParentInv(s, c) && s.procs[c].child == None && c != s.init
    ensures forall i :: 0 <= i < |s.procs| && s.procs[i].state == Embryo && s.procs[i].parent == Some(cur) ==>
      s.procs[cur].child == Some(i)
  {
    assert ChildInv(s, cur) && ChildInv(s, c) && ParentInv(s, c);
    forall i | 0 <= i < |s.procs| && i != cur ensures s.procs[i].child != Some(c) {
      assert ChildInv(s, i);
    }
    forall i | 0 <= i < |s.procs| && s.procs[i].state == Embryo && s.procs[i].parent == Some(cur)
      ensures s.procs[cur].child == Some(i)
    {
      assert ParentInv(s, i);
    }
  }

  lemma AllocInv(s: Sys, cur: nat, slot: nat)
    requires Inv(s) && Enabled(s, Alloc(cur, slot))
    ensures Inv(Apply(s, Alloc(cur, slot)))
  {
    ForkFacts(s, cur, slot);
    CraftsInv(s, Apply(s, Alloc(cur, slot)), cur, slot);
  }

  lemma ForkingInv(s: Sys, step: Step)
    requires Inv(s) && Enabled(s, step) && IsForking(step)
    ensures Inv(Apply(s, step))
  {
    assert ChildInv(s, step.cur);
    ForkingCrafts(s, step);
    ForkingPids(s, step);
    hide Inv, CraftsChild, Apply;
    CraftsInv(s, Apply(s, step), step.cur, s.procs[step.cur].child.value);
  }

  lemma ForkingCrafts(s: Sys, step: Step)
    requires Inv(s) && Enabled(s, step) && IsForking(step)
    ensures CraftsChild(s, Apply(s, step), step.cur, s.procs[step.cur].child.value)
  {
    assert ChildInv(s, step.cur);
    ForkFacts(s, step.cur, s.procs[step.cur].child.value);
    hide Inv;
  }

  lemma ForkingPids(s: Sys, step: Step)
    requires Inv(s) && Enabled(s, step) && IsForking(step)
    ensures PidInv(Apply(s, step))
  {
    assert ChildInv(s, step.cur);
    hide ParentInv, ChildInv, WaitInv;
  }

  lemma ReapInv(s: Sys, cur: nat, slot: nat)
    requires Inv(s) && Enabled(s, WaitReap(cur, slot))
    ensures Inv(Apply(s, WaitReap(cur, slot)))
  {
    ForkFacts(s, cur, slot);
    CraftsInv(s, Apply(s, WaitReap(cur, slot)), cur, slot);
  }

  lemma StepInv(s: Sys, step: Step)
    requires Inv(s) && Enabled(s, step)
    ensures Inv(Apply(s, step))
  {
    if IsQuiet(step) {
      QuietStep(s, step);
    } else if step.Alloc? {
      AllocInv(s, step.cur, step.slot);
    } else if IsForking(step) {
      ForkingInv(s, step);
    } else if step.WaitReap? {
      ReapInv(s, step.cur, step.slot);
    } else {
      forall i: nat | i < |s.procs| ensures ExitEffect(s, step.cur, s.procs[i], Apply(s, step).procs[i], i) {
        ExitEffects(s, step.cur, i);
      }
      ExitEffects(s, step.cur, 0);
      ExitInv(s, Apply(s, step), step.cur);
    }
  }

  // ---------- the life of one process ----------

  // The half-built child of the process that takes the step.
  predicate Crafted(s: Sys, cur: nat, i: nat) {
    cur < |s.procs| && s.procs[cur].child == Some(i)
  }

  ghost predicate Wakes(s: Sys, step: Step, i: nat)
    requires Enabled(s, step) && i < |s.procs|
  {
    match step
    case Kill(slot) => slot == i
    case Wakeup(a) => s.procs[i].chan == Some(OtherAddr(a))
    case Exit(cur) => ExitWakes(s, cur, s.procs[i])
    case _ => false
  }

  /** The life of the process in slot i, seen from that process. */
  ghost function NextState(s: Sys, step: Step, i: nat): State
    requires Enabled(s, step) && i < |s.procs|
  {
    match s.procs[i].state
    case Unused => if step.Alloc? && step.slot == i then Embryo else Unused
    case Embryo =>
      if step.ForkDone? && Crafted(s, step.cur, i) then Runnable
      else if step.AllocFail? && Crafted(s, step.cur, i) then Unused else Embryo
    case Runnable => if step == Schedule(i) then Running else Runnable
    case Running =>
      if step == Yield(i) then Runnable else if step == Exit(i) then Zombie
      else if step == WaitSleep(i) || (step.Sleep? && step.cur == i) then Sleeping else Running
    case Sleeping => if Wakes(s, step, i) then Runnable else Sleeping
    case Zombie => if step.WaitReap? && step.slot == i then Unused else Zombie
  }

  ghost function NextParent(s: Sys, step: Step, i: nat): Option<nat>
    requires Enabled(s, step) && i < |s.procs|
  {
    if step.Adopt? && Crafted(s, step.cur, i) then Some(step.cur)
    else if step.Exit? && s.procs[i].parent == Some(step.cur) then Some(s.init)
    else if step.WaitReap? && step.slot == i then None else s.procs[i].parent
  }

  ghost function NextPid(s: Sys, step: Step, i: nat): int
    requires Enabled(s, step) && i < |s.procs|
  {
    if step.Alloc? && step.slot == i then s.nextpid
    else if step.WaitReap? && step.slot == i then 0 else s.procs[i].pid
  }

  // What a process sleeps on; it forgets it when it runs again.
  ghost function NextChan(s: Sys, step: Step, i: nat): Option<Chan>
    requires Enabled(s, step) && i < |s.procs|
  {
    if step == WaitSleep(i) then Some(SlotAddr(i))
    else if step.Sleep? && step.cur == i then Some(OtherAddr(step.addr))
    else if step == Schedule(i) then None else s.procs[i].chan
  }

  ghost function NextChild(s: Sys, step: Step, i: nat): Option<nat>
    requires Enabled(s, step) && i < |s.procs|
  {
    if step.Alloc? && step.cur == i then Some(step.slot)
    else if (step.AllocFail? || step.ForkDone?) && step.cur == i then None else s.procs[i].child
  }

  ghost predicate NextKilled(s: Sys, step: Step, i: nat)
    requires i < |s.procs|
  {
    step == Kill(i) || (s.procs[i].killed && !(step.WaitReap? && step.slot == i))
  }

  ghost predicate Lives(s: Sys, step: Step, i: nat)
    requires Enabled(s, step) && i < |s.procs|
  {
    && |Apply(s, step).procs| == |s.procs| && Apply(s, step).init == s.init
    && Apply(s, step).nextpid == (if step.Alloc? then s.nextpid + 1 else s.nextpid)
    && var p := Apply(s, step).procs[i];
    && p.state == NextState(s, step, i) && p.pid == NextPid(s, step, i) && p.parent == NextParent(s, step, i)
    && p.chan == NextChan(s, step, i) && p.killed == NextKilled(s, step, i) && p.child == NextChild(s, step, i)
  }

  /** Every critical section does to each process what its life prescribes, and nothing else. */
  lemma LifeExactly(s: Sys, step: Step, i: nat)
    requires Inv(s) && Enabled(s, step) && i < |s.procs|
    ensures Lives(s, step, i)
  {
    if step.Exit? {
      ExitLife(s, step.cur, i);
    } else if step.Alloc? {
      AllocLife(s, step.cur, step.slot, i);
    } else if IsForking(step) {
      ForkLife(s, step, i);
    } else {
      PlainLife(s, step, i);
    }
    hide *;
  }

  lemma ExitLife(s: Sys, cur: nat, i: nat)
    requires Inv(s) && Enabled(s, Exit(cur)) && i < |s.procs|
    ensures Lives(s, Exit(cur), i)
  {
    ExitEffects(s, cur, i);
    hide Inv, ExitTable, ExitWakes;
  }

  lemma ForkLife(s: Sys, step: Step, i: nat)
    requires Inv(s) && Enabled(s, step) && i < |s.procs| && IsForking(step)
    ensures Lives(s, step, i)
  {
    assert ChildInv(s, step.cur);
    hide Inv, ExitTable, ExitWakes, Reaped, WakeAll, KillProc;
    var c := s.procs[step.cur].child.value;
    assert Crafted(s, step.cur, i) <==> i == c;
  }

  lemma AllocLife(s: Sys, cur: nat, slot: nat, i: nat)
    requires Enabled(s, Alloc(cur, slot)) && i < |s.procs|
    ensures Lives(s, Alloc(cur, slot), i)
  {
    hide ExitTable, ExitWakes, Reaped, WakeAll, KillProc;
  }

  lemma PlainLife(s: Sys, step: Step, i: nat)
    requires Enabled(s, step) && i < |s.procs| && !IsForking(step) && !step.Alloc? && !step.Exit?
    ensures Lives(s, step, i)
  {
    hide HasChild;
  }

  // ---------- whole runs ----------

  ghost predicate Runs(s: Sys, steps: seq<Step>)
    decreases |steps|
  {
    steps == [] || (Enabled(s, steps[0]) && Runs(Apply(s, steps[0]), steps[1..]))
  }

  ghost function After(s: Sys, steps: seq<Step>): Sys
    requires Runs(s, steps)
    decreases |steps|
  {
    if steps == [] then s else After(Apply(s, steps[0]), steps[1..])
  }

  lemma {:induction false} RunInv(s: Sys, steps: seq<Step>)
    requires Inv(s) && Runs(s, steps)
    ensures Inv(After(s, steps))
    decreases |steps|
  {
    if steps != [] {
      StepInv(s, steps[0]);
      RunInv(Apply(s, steps[0]), steps[1..]);
    }
  }

  /** In every reachable table: parents are alive, live pids are distinct, and nobody sleeps in wait
      while it has a child to reap. */
  lemma TreeInvariant(n: nat, steps: seq<Step>, i: nat)
    requires n > 0 && Runs(Booted(n), steps) && i < |After(Booted(n), steps).procs|
    ensures var s := After(Booted(n), steps);
      && ((Active(s.procs[i].state) || s.procs[i].state == Zombie) && i != s.init ==>
            s.procs[i].parent.Some? && ActiveAt(s, s.procs[i].parent.value))
      && (forall j :: 0 <= j < |s.procs| && j != i && s.procs[i].state != Unused && s.procs[j].state != Unused ==>
            s.procs[j].pid != s.procs[i].pid)
      && (s.procs[i].state == Sleeping && s.procs[i].chan == Some(SlotAddr(i)) ==>
            forall j :: 0 <= j < |s.procs| ==> !ZombieChild(s.procs, i, j))
  {
    BootInv(n);
    RunInv(Booted(n), steps);
    var s := After(Booted(n), steps);
    assert ParentInv(s, i) && WaitInv(s, i);
  }

  lemma {:induction false} RunSnoc(s: Sys, steps: seq<Step>)
    requires Runs(s, steps) && steps != []
    ensures var n := |steps| - 1;
      && Runs(s, steps[..n]) && Enabled(After(s, steps[..n]), steps[n])
      && After(s, steps) == Apply(After(s, steps[..n]), steps[n])
    decreases |steps|
  {
    hide Enabled, Apply;
    var n := |steps| - 1;
    if n == 0 {
      assert steps[..n] == [] && steps[1..] == [];
    } else {
      RunSnoc(Apply(s, steps[0]), steps[1..]);
      assert steps[..n][1..] == steps[1..][..n - 1];
    }
  }

  // Slot i has been hit by a kill since it was last reaped.
  predicate Marked(steps: seq<Step>, i: nat) {
    steps != [] &&
      var n := |steps| - 1;
      steps[n] == Kill(i) || (Marked(steps[..n], i) && !(steps[n].WaitReap? && steps[n].slot == i))
  }

  /** A process counts as killed exactly if kill has hit its slot since the slot was last reaped. */
  lemma {:induction false} KilledExactly(n: nat, steps: seq<Step>, i: nat)
    requires n > 0 && Runs(Booted(n), steps) && i < n
    ensures |After(Booted(n), steps).procs| == n && (After(Booted(n), steps).procs[i].killed <==> Marked(steps, i))
    decreases |steps|
  {
    if steps != [] {
      var before := steps[..|steps| - 1];
      RunSnoc(Booted(n), steps);
      KilledExactly(n, before, i);
      BootInv(n);
      RunInv(Booted(n), before);
      LifeExactly(After(Booted(n), before), steps[|steps| - 1], i);
      hide Inv, Apply, Enabled, Runs, After;
    }
  }

  ghost predicate InWait(s: Sys, i: nat) {
    i < |s.procs| && s.procs[i].state == Sleeping && s.procs[i].chan == Some(SlotAddr(i))
  }

  /** From a kill until it is reaped, a process is neither asleep in wait nor able to fall asleep there. */
  lemma {:induction false} KilledNeverWaits(s: Sys, steps: seq<Step>, i: nat)
    requires Inv(s) && Runs(s, steps) && i < |s.procs| && s.procs[i].killed && !InWait(s, i)
    requires forall k :: 0 <= k < |steps| ==> !(steps[k].WaitReap? && steps[k].slot == i)
    ensures var e := After(s, steps); i < |e.procs| && e.procs[i].killed && !InWait(e, i) && !Enabled(e, WaitSleep(i))
    decreases |steps|
  {
    if steps != [] {
      LifeExactly(s, steps[0], i);
      StepInv(s, steps[0]);
      hide Inv, Apply;
      KilledNeverWaits(Apply(s, steps[0]), steps[1..], i);
    }
  }

  /** Right after a kill its victim is marked and not asleep, so the lemma above applies. */
  lemma KillWakes(s: Sys, slot: nat)
    requires Inv(s) && Enabled(s, Kill(slot))
    ensures var e := Apply(s, Kill(slot));
      && e.procs[slot].killed && e.procs[slot].state != Sleeping && !InWait(e, slot)
      && (s.procs[slot].state == Sleeping ==> Enabled(e, Schedule(slot)))
  {
    LifeExactly(s, Kill(slot), slot);
  }

  /** sleep and wakeup on a channel: the sleeper runs on as if nothing had happened, and nobody else who
      slept there stays asleep. */
  lemma SleepWakeup(s: Sys, i: nat, a: int, j: nat)
    requires Inv(s) && i < |s.procs| && s.procs[i].state == Running && j < |s.procs|
    ensures var steps := [Sleep(i, a), Wakeup(a), Schedule(i)];
      && Runs(s, steps) && |After(s, steps).procs| == |s.procs|
      && After(s, steps).procs[i] == s.procs[i].(chan := None)
      && (s.procs[j].state == Sleeping ==>
            After(s, steps).procs[j] == s.procs[j].(state := if s.procs[j].chan == Some(OtherAddr(a)) then Runnable else Sleeping))
  {
    var s1 := Apply(s, Sleep(i, a));
    var s2 := Apply(s1, Wakeup(a));
    assert s1 == Set(s, i, s.procs[i].(state := Sleeping, chan := Some(OtherAddr(a))));
    assert s2.procs == WakeAll(s1.procs, OtherAddr(a));
    hide Inv, ExitTable, Reaped, KillProc, HasChild;
    assert Apply(s2, Schedule(i)).procs[i] == s.procs[i].(chan := None);
    hide Apply, Enabled, WakeAll;
    OneStep(s2, Schedule(i), []);
    OneStep(s1, Wakeup(a), [Schedule(i)]);
    OneStep(s, Sleep(i, a), [Wakeup(a), Schedule(i)]);
  }

  // A child that is not dead yet.
  ghost predicate LiveChild(s: Sys, i: nat, j: nat) {
    j < |s.procs| && s.procs[j].parent == Some(i) && (Active(s.procs[j].state) || s.procs[j].state == Embryo)
  }

  ghost predicate HasKids(s: Sys) {
    forall i: nat :: InWait(s, i) ==> exists j :: LiveChild(s, i, j)
  }

  lemma KidsKept(s: Sys, step: Step)
    requires Inv(s) && HasKids(s) && Enabled(s, step)
    ensures HasKids(Apply(s, step))
  {
    var s' := Apply(s, step);
    StepInv(s, step);
    SameSize(s, step);
    hide Inv, Apply, Enabled, Lives;
    forall i: nat | InWait(s', i) ensures exists j :: LiveChild(s', i, j) {
      LifeExactly(s, step, i);
      var j := KidOf(s, step, i);
      LifeExactly(s, step, j);
      StillLive(s, step, i, j);
    }
  }

  lemma SameSize(s: Sys, step: Step)
    requires Inv(s) && Enabled(s, step)
    ensures |Apply(s, step).procs| == |s.procs|
  {
    LifeExactly(s, step, s.init);
  }

  // Whoever sleeps in wait after a step had a child before it.
  lemma KidOf(s: Sys, step: Step, i: nat) returns (j: nat)
    requires Inv(s) && HasKids(s) && Enabled(s, step) && i < |s.procs| && Lives(s, step, i) && InWait(Apply(s, step), i)
    ensures j < |s.procs| && s.procs[j].parent == Some(i) && (s.procs[i].state == Sleeping || step == WaitSleep(i))
  {
    if InWait(s, i) {
      j :| LiveChild(s, i, j);
    } else {
      hide Inv, HasKids, Apply, ExitWakes;
      assert step == WaitSleep(i);
      j :| 0 <= j < |s.procs| && s.procs[j].parent == Some(i);
    }
  }

  lemma StillLive(s: Sys, step: Step, i: nat, j: nat)
    requires Inv(s) && Enabled(s, step) && i < |s.procs| && j < |s.procs| && Lives(s, step, i) && Lives(s, step, j)
    requires Inv(Apply(s, step)) && InWait(Apply(s, step), i) && s.procs[j].parent == Some(i)
    requires s.procs[i].state == Sleeping || step == WaitSleep(i)
    ensures LiveChild(Apply(s, step), i, j)
  {
    var s' := Apply(s, step);
    assert WaitInv(s', i) && ParentInv(s', j);
    assert !ZombieChild(s'.procs, i, j);
    if step.Adopt? { assert ChildInv(s, step.cur); }
    hide Inv, Apply, ExitWakes;
  }

  /** Nobody waits in vain: in every run a process asleep in wait has a child that is still alive. */
  lemma {:induction false} WaitsForSomeone(n: nat, steps: seq<Step>, i: nat)
    requires n > 0 && Runs(Booted(n), steps) && InWait(After(Booted(n), steps), i)
    ensures exists j :: LiveChild(After(Booted(n), steps), i, j)
  {
    BootInv(n);
    RunKids(Booted(n), steps);
  }

  lemma {:induction false} RunKids(s: Sys, steps: seq<Step>)
    requires Inv(s) && HasKids(s) && Runs(s, steps)
    ensures HasKids(After(s, steps))
    decreases |steps|
  {
    if steps != [] {
      StepInv(s, steps[0]);
      KidsKept(s, steps[0]);
      hide Inv, HasKids, Apply, Enabled;
      RunKids(Apply(s, steps[0]), steps[1..]);
    }
  }

  /** What the calls of wait in a run return, in order. */
  ghost function Returned(s: Sys, steps: seq<Step>): seq<int>
    requires Runs(s, steps)
    decreases |steps|
  {
    if steps == [] then [] else
      (if steps[0].WaitReap? then [s.procs[steps[0].slot].pid] else []) + Returned(Apply(s, steps[0]), steps[1..])
  }

  ghost predicate LivePid(s: Sys, x: int) {
    exists i :: 0 <= i < |s.procs| && s.procs[i].state != Unused && s.procs[i].pid == x
  }

  // A slot in use keeps its pid, or has just been given the next one.
  lemma PidAt(s: Sys, step: Step, i: nat)
    requires Inv(s) && Enabled(s, step) && i < |s.procs|
    ensures |Apply(s, step).procs| == |s.procs|
    ensures var p, p' := s.procs[i], Apply(s, step).procs[i];
      p'.state != Unused ==> (p.state != Unused && p'.pid == p.pid) || p'.pid == s.nextpid
  {
    if step.Exit? {
      ExitEffects(s, step.cur, i);
    } else if IsForking(step) {
      assert ChildInv(s, step.cur);
    }
  }

  lemma PidsBack(s: Sys, step: Step, x: int)
    requires Inv(s) && Enabled(s, step)
    ensures LivePid(Apply(s, step), x) ==> LivePid(s, x) || x >= s.nextpid
    ensures s.nextpid <= Apply(s, step).nextpid
  {
    var s' := Apply(s, step);
    if LivePid(s', x) {
      PidAt(s, step, 0);
      var i :| 0 <= i < |s'.procs| && s'.procs[i].state != Unused && s'.procs[i].pid == x;
      PidAt(s, step, i);
    }
  }

  lemma ReapedPidGone(s: Sys, cur: nat, slot: nat)
    requires Inv(s) && Enabled(s, WaitReap(cur, slot))
    ensures !LivePid(Apply(s, WaitReap(cur, slot)), s.procs[slot].pid) && LivePid(s, s.procs[slot].pid)
    ensures s.procs[slot].pid < s.nextpid
  {
  }

  // The table while cur makes a child in slot c, up to the moment the child runs.
  function WithChild(s: Sys, cur: nat, c: nat, p: Proc, inFork: bool): Sys
    requires cur < |s.procs| && c < |s.procs|
  {
    Sys(s.procs[c := p][cur := s.procs[cur].(child := if inFork then Some(c) else None)], s.nextpid + 1, s.init)
  }

  /** fork, exit of the child and wait of the parent: wait returns the pid that fork gave out, and the table
      is what it was, with the slot clean. */
  lemma ForkExitWait(s: Sys, cur: nat, c: nat)
    requires Inv(s) && Enabled(s, Alloc(cur, c)) && forall i :: 0 <= i < c ==> !ZombieChild(s.procs, cur, i)
    ensures var steps := [Alloc(cur, c), Adopt(cur), ForkDone(cur), Schedule(c), Exit(c), WaitReap(cur, c)];
      && Runs(s, steps) && Returned(s, steps) == [s.nextpid]
      && After(s, steps) == Sys(s.procs[c := Proc(Unused, 0, None, None, false, None)], s.nextpid + 1, s.init)
  {
    var p := Born(s, cur, c);
    var s1, s2 := WithChild(s, cur, c, p.(parent := s.procs[c].parent), true), WithChild(s, cur, c, p, true);
    var s3 := WithChild(s, cur, c, p.(state := Runnable), false);
    var s4 := WithChild(s, cur, c, p.(state := Running, chan := None), false);
    var s5 := WithChild(s, cur, c, p.(state := Zombie, chan := None), false);
    ForkSteps(s, cur, c);
    ChildRuns(s, cur, c);
    hide Apply, Enabled, WithChild, Born, Inv;
    OneStep(s5, WaitReap(cur, c), []);
    OneStep(s4, Exit(c), [WaitReap(cur, c)]);
    OneStep(s3, Schedule(c), [Exit(c), WaitReap(cur, c)]);
    OneStep(s2, ForkDone(cur), [Schedule(c), Exit(c), WaitReap(cur, c)]);
    OneStep(s1, Adopt(cur), [ForkDone(cur), Schedule(c), Exit(c), WaitReap(cur, c)]);
    OneStep(s, Alloc(cur, c), [Adopt(cur), ForkDone(cur), Schedule(c), Exit(c), WaitReap(cur, c)]);
  }

  // The child in the hands of fork.
  function Born(s: Sys, cur: nat, c: nat): Proc
    requires c < |s.procs|
  {
    s.procs[c].(state := Embryo, pid := s.nextpid, parent := Some(cur))
  }

  lemma ForkSteps(s: Sys, cur: nat, c: nat)
    requires Inv(s) && Enabled(s, Alloc(cur, c))
    ensures var p := Born(s, cur, c);
      var s1, s2 := WithChild(s, cur, c, p.(parent := s.procs[c].parent), true), WithChild(s, cur, c, p, true);
      && Apply(s, Alloc(cur, c)) == s1
      && Enabled(s1, Adopt(cur)) && Apply(s1, Adopt(cur)) == s2
      && Enabled(s2, ForkDone(cur)) && Apply(s2, ForkDone(cur)) == WithChild(s, cur, c, p.(state := Runnable), false)
  {
    ForkFacts(s, cur, c);
    hide Inv, ExitTable, Reaped, WakeAll, KillProc, HasChild;
  }

  /** A process can be born killed: kill(0) hits the first unused slot, and fork does not clear the mark. */
  lemma BornKilled(n: nat)
    requires n > 1
    ensures var steps := [Kill(1), Schedule(0), Alloc(0, 1), Adopt(0), ForkDone(0)];
      && Runs(Booted(n), steps)
      && After(Booted(n), steps).procs[1] == Proc(Runnable, 2, Some(0), None, true, None)
  {
    var s0 := Booted(n);
    var s2 := HitBeforeFork(n);
    var s1 := Apply(s0, Kill(1));
    var p := Born(s2, 0, 1);
    var s3, s4 := WithChild(s2, 0, 1, p.(parent := s2.procs[1].parent), true), WithChild(s2, 0, 1, p, true);
    ForkSteps(s2, 0, 1);
    assert s1 == s0.(procs := s0.procs[1 := KillProc(s0.procs[1])]);
    assert Apply(s1, Schedule(0)) == s2;
    hide Apply, Enabled, Inv, Booted;
    OneStep(s4, ForkDone(0), []);
    OneStep(s3, Adopt(0), [ForkDone(0)]);
    OneStep(s2, Alloc(0, 1), [Adopt(0), ForkDone(0)]);
    OneStep(s1, Schedule(0), [Alloc(0, 1), Adopt(0), ForkDone(0)]);
    OneStep(s0, Kill(1), [Schedule(0), Alloc(0, 1), Adopt(0), ForkDone(0)]);
  }

  lemma HitBeforeFork(n: nat) returns (s2: Sys)
    requires n > 1
    ensures s2 == Booted(n).(procs := Booted(n).procs[1 := KillProc(Booted(n).procs[1])][0 := Booted(n).procs[0].(state := Running)])
    ensures Inv(s2) && Enabled(s2, Alloc(0, 1))
  {
    s2 := Booted(n).(procs := Booted(n).procs[1 := KillProc(Booted(n).procs[1])][0 := Booted(n).procs[0].(state := Running)]);
  }

  lemma ChildRuns(s: Sys, cur: nat, c: nat)
    requires Inv(s) && Enabled(s, Alloc(cur, c)) && forall i :: 0 <= i < c ==> !ZombieChild(s.procs, cur, i)
    ensures var p := Born(s, cur, c);
      var s3 := WithChild(s, cur, c, p.(state := Runnable), false);
      var s4 := WithChild(s, cur, c, p.(state := Running, chan := None), false);
      var s5 := WithChild(s, cur, c, p.(state := Zombie, chan := None), false);
      && Enabled(s3, Schedule(c)) && Apply(s3, Schedule(c)) == s4
      && Enabled(s4, Exit(c)) && Apply(s4, Exit(c)) == s5
      && Enabled(s5, WaitReap(cur, c)) && s5.procs[c].pid == s.nextpid
      && Apply(s5, WaitReap(cur, c)) == Sys(s.procs[c := Proc(Unused, 0, None, None, false, None)], s.nextpid + 1, s.init)
  {
    ForkFacts(s, cur, c);
    var p := Born(s, cur, c);
    ChildExits(s, cur, c, p, WithChild(s, cur, c, p.(state := Running, chan := None), false));
    hide Inv, ExitTable, WakeAll, KillProc, HasChild;
    var s5 := WithChild(s, cur, c, p.(state := Zombie, chan := None), false);
    forall i | 0 <= i < c ensures !ZombieChild(s5.procs, cur, i) {
      assert !ZombieChild(s.procs, cur, i);
    }
  }

  lemma OneStep(s: Sys, step: Step, rest: seq<Step>)
    requires Enabled(s, step) && Runs(Apply(s, step), rest)
    ensures Runs(s, [step] + rest) && After(s, [step] + rest) == After(Apply(s, step), rest)
    ensures Returned(s, [step] + rest)
         == (if step.WaitReap? then [s.procs[step.slot].pid] else []) + Returned(Apply(s, step), rest)
  {
    assert ([step] + rest)[1..] == rest;
  }

  // The new child has no children, and its parent is awake, so its exit touches nobody else.
  lemma ChildExits(s: Sys, cur: nat, c: nat, p: Proc, s4: Sys)
    requires Inv(s) && Enabled(s, Alloc(cur, c)) && cur != c && c != s.init && p.child == None && p.parent == Some(cur)
    requires s4 == WithChild(s, cur, c, p.(state := Running, chan := None), false)
    ensures Enabled(s4, Exit(c))
    ensures Apply(s4, Exit(c)) == WithChild(s, cur, c, p.(state := Zombie, chan := None), false)
  {
    var s5 := WithChild(s, cur, c, p.(state := Zombie, chan := None), false);
    forall i: nat | i < |s.procs| ensures s4.procs[i].parent != Some(c) {
      assert ParentInv(s, i);
    }
    assert !LeavesZombie(s4.procs, c, |s.procs|);
    forall i: nat | i < |s.procs| ensures Apply(s4, Exit(c)).procs[i] == s5.procs[i] {
      ExitEffects(s4, c, i);
      assert WaitInv(s, i);
      hide ExitTable, LeavesZombie;
    }
    ExitEffects(s4, c, 0);
    assert Apply(s4, Exit(c)).procs == s5.procs;
  }

  /** Each pid is returned by at most one wait, and only once its process has exited. */
  lemma {:induction false} ReturnedOnce(s: Sys, steps: seq<Step>)
    requires Inv(s) && Runs(s, steps)
    ensures forall i, j :: 0 <= i < j < |Returned(s, steps)| ==> Returned(s, steps)[i] != Returned(s, steps)[j]
    ensures forall i :: 0 <= i < |Returned(s, steps)| ==> LivePid(s, Returned(s, steps)[i]) || Returned(s, steps)[i] >= s.nextpid
    decreases |steps|
  {
    hide Apply, Inv, LivePid;
    if steps != [] {
      var s1, rest := Apply(s, steps[0]), Returned(Apply(s, steps[0]), steps[1..]);
      StepInv(s, steps[0]);
      ReturnedOnce(s1, steps[1..]);
      forall i | 0 <= i < |rest| ensures LivePid(s, rest[i]) || rest[i] >= s.nextpid {
        PidsBack(s, steps[0], rest[i]);
      }
      if steps[0].WaitReap? {
        var x := s.procs[steps[0].slot].pid;
        ReapedPidGone(s, steps[0].cur, steps[0].slot);
        PidsBack(s, steps[0], x);
        assert forall i :: 0 <= i < |rest| ==> rest[i] != x;
        assert Returned(s, steps) == [x] + rest;
      } else {
        assert Returned(s, steps) == rest;
      }
    }
  }

  // ---------- proc.c ----------

  class Ptable {
    const init: nat
    const proc: array<Proc>
    var nextpid: int

    ghost function View(): Sys
      reads this, proc
    {
      Sys(proc[..], nextpid, init)
    }

    /** pinit and userinit */
    constructor (n: nat)
      requires n > 0
      ensures View() == Booted(n) && fresh(proc)
    {
      init, nextpid := 0, 2;
      proc := new Proc[n](i => if i == 0 then Proc(Runnable, 1, None, None, false, None) else Proc(Unused, 0, None, None, false, None));
    }

    /** wakeup1 */
    method Wakeup1(c: Chan)
      modifies proc
      ensures proc[..] == WakeAll(old(proc[..]), c)
    {
      var i := 0;
      while i < proc.Length
        invariant 0 <= i <= proc.Length
        invariant forall j :: 0 <= j < i ==> proc[j] == WakeAll(old(proc[..]), c)[j]
        invariant forall j :: i <= j < proc.Length ==> proc[j] == old(proc[j])
      {
        if proc[i].state == Sleeping && proc[i].chan == Some(c) {
          proc[i] := proc[i].(state := Runnable);
        }
        i := i + 1;
      }
    }

    /** allocproc, up to releasing the lock: the first unused slot, or none. */
    method AllocProc(cur: nat) returns (p: Option<nat>)
      requires Free(View(), cur)
      modifies proc, this`nextpid
      ensures p.Some? ==> old(Enabled(View(), Alloc(cur, p.value))) && View() == Apply(old(View()), Alloc(cur, p.value))
      ensures p.Some? ==> p.value < proc.Length && forall i :: 0 <= i < p.value ==> old(proc[i].state) != Unused
      ensures p == None ==> View() == old(View()) && forall i :: 0 <= i < proc.Length ==> proc[i].state != Unused
    {
      var i := 0;
      while i < proc.Length && proc[i].state != Unused
        invariant 0 <= i <= proc.Length
        invariant forall j :: 0 <= j < i ==> proc[j].state != Unused
      {
        i := i + 1;
      }
      if i == proc.Length {
        return None;
      }
      proc[i] := proc[i].(state := Embryo, pid := nextpid);
      nextpid := nextpid + 1;
      proc[cur] := proc[cur].(child := Some(i));
      return Some(i);
    }

    /** exit, from acquiring the lock to the switch to the scheduler; init must not exit. */
    method Exit(cur: nat)
      requires Inv(View()) && Free(View(), cur) && cur != init
      modifies proc
      ensures old(Enabled(View(), Step.Exit(cur))) && View() == Apply(old(View()), Step.Exit(cur))
    {
      assert ParentInv(View(), cur);
      Wakeup1(SlotAddr(proc[cur].parent.value));
      ghost var ps := proc[..];
      var i := 0;
      while i < proc.Length
        invariant 0 <= i <= proc.Length && proc[..] == Reparent(ps, cur, init, i)
      {
        if proc[i].parent == Some(cur) {
          proc[i] := proc[i].(parent := Some(init));
          if proc[i].state == Zombie {
            Wakeup1(SlotAddr(init));
          }
        }
        i := i + 1;
      }
      proc[cur] := proc[cur].(state := Zombie);
    }

    /** One round of wait: the pid of a reaped child, -1 if there is nothing to wait for, or a sleep. */
    method Wait(cur: nat) returns (pid: Option<int>, ghost slot: nat)
      requires Inv(View()) && Free(View(), cur)
      modifies proc
      ensures pid.Some? && pid.value != -1 ==> old(Enabled(View(), WaitReap(cur, slot)))
      ensures pid.Some? && pid.value != -1 ==> pid.value == old(proc[slot].pid)
      ensures pid.Some? && pid.value != -1 ==> forall i :: 0 <= i < slot ==> !ZombieChild(old(proc[..]), cur, i)
      ensures pid.Some? && pid.value != -1 ==> View() == Apply(old(View()), WaitReap(cur, slot))
      ensures pid == Some(-1) ==> forall j :: 0 <= j < proc.Length ==> !ZombieChild(proc[..], cur, j)
      ensures pid == Some(-1) ==> View() == old(View()) && (!HasChild(proc[..], cur) || proc[cur].killed)
      ensures (forall j :: 0 <= j < proc.Length ==> !ZombieChild(old(proc[..]), cur, j)) ==>
        (pid == Some(-1) <==> !HasChild(old(proc[..]), cur) || old(proc[cur].killed))
      ensures pid == None ==> old(Enabled(View(), WaitSleep(cur))) && View() == Apply(old(View()), WaitSleep(cur))
    {
      var havekids, i := false, 0;
      slot := 0;
      while i < proc.Length
        invariant 0 <= i <= proc.Length && View() == old(View())
        invariant havekids <==> exists j :: 0 <= j < i && proc[j].parent == Some(cur)
        invariant forall j :: 0 <= j < i ==> !ZombieChild(proc[..], cur, j)
      {
        if proc[i].parent == Some(cur) {
          havekids := true;
          if proc[i].state == Zombie {
            assert Enabled(View(), WaitReap(cur, i));
            pid, slot := Some(proc[i].pid), i;
            proc[i] := Reaped(proc[i]);
            return;
          }
        }
        i := i + 1;
      }
      if !havekids || proc[cur].killed {
        return Some(-1), 0;
      }
      assert HasChild(proc[..], cur);
      proc[cur] := proc[cur].(state := Sleeping, chan := Some(SlotAddr(cur)));
      return None, 0;
    }

    /** kill: marks the first slot with the pid and wakes it if it sleeps; -1 if there is none. */
    method Kill(pid: int) returns (r: int, ghost slot: nat)
      modifies proc
      ensures r == 0 ==> old(Enabled(View(), Step.Kill(slot))) && old(proc[slot].pid) == pid
      ensures r == 0 ==> forall i :: 0 <= i < slot ==> old(proc[i].pid) != pid
      ensures r == 0 ==> View() == Apply(old(View()), Step.Kill(slot))
      ensures r == 0 ==> proc[slot].killed
      ensures r == 0 ==> proc[slot].state == if old(proc[slot].state) == Sleeping then Runnable else old(proc[slot].state)
      ensures forall i :: 0 <= i < proc.Length && (r != 0 || i != slot) ==> proc[i] == old(proc[i])
      ensures r != 0 ==> r == -1 && View() == old(View()) && forall i :: 0 <= i < proc.Length ==> proc[i].pid != pid
    {
      var i := 0;
      while i < proc.Length
        invariant 0 <= i <= proc.Length && View() == old(View())
        invariant forall j :: 0 <= j < i ==> proc[j].pid != pid
      {
        if proc[i].pid == pid {
          assert Enabled(View(), Step.Kill(i));
          proc[i] := KillProc(proc[i]);
          return 0, i;
        }
        i := i + 1;
      }
      return -1, 0;
    }
  }
}
