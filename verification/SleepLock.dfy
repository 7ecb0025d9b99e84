/** sleeplock.c over sleep and wakeup of proc.c, as interleaved steps of any number of processes.
    Acquiring and releasing a spinlock are single steps, and so is the scan of wakeup1, which runs
    with ptable.lock held. Processes are identified by their pids. */
module SleepLock {
  // Where a process stands with respect to one sleep-lock.
  datatype Pc =
    | Idle        // does not hold the sleep-lock and does not want it
    | Want        // acquiresleep: about to acquire lk->lk
    | Test        // holds lk->lk, at the test of lk->locked
    | Pause       // sleep: holds lk->lk, about to acquire ptable.lock
    | PauseBoth   // holds both, about to release lk->lk
    | PausePt     // holds ptable.lock, about to set chan and state
    | Asleep      // SLEEPING on the lock
    | Woken       // RUNNABLE, still inside sleep
    | Back        // running again, holds ptable.lock
    | Took        // holds lk->lk, has set locked
    | Stamped     // holds lk->lk, has set pid
    | Owner       // acquiresleep has returned
    | Unlock      // releasesleep: about to acquire lk->lk
    | Clear       // holds lk->lk, about to clear locked
    | Cleared     // holds lk->lk, locked is 0; about to clear pid
    | Wake        // wakeup: holds lk->lk, about to acquire ptable.lock
    | WakeBoth    // holds both, about to run wakeup1
    | WakeDone    // holds both, wakeup1 has run
    | Leave       // holds lk->lk, about to release it

  // Any code outside this lock's protocol may hold a spinlock too: the scheduler, kill, a wakeup of
  // another channel, holdingsleep.
  datatype Holder = Nobody | Outside | Proc(p: nat)

  datatype Sys = Sys(procs: map<nat, Pc>, lk: Holder, pt: Holder, locked: bool, pid: nat)

  datatype Step =
    | Run(p: nat)                // the process takes its next step
    | OutsideLk | OutsideLkDone  // lk->lk held elsewhere for a while
    | OutsidePt | OutsidePtDone  // ptable.lock held elsewhere for a while
    | Kill(p: nat)               // kill makes a sleeping process runnable

  predicate HasLk(pc: Pc) {
    pc.Test? || pc.Pause? || pc.PauseBoth? || pc.Took? || pc.Stamped? || pc.Clear? || pc.Cleared? || pc.Wake? || pc.WakeBoth? || pc.WakeDone? || pc.Leave?
  }

  predicate HasPt(pc: Pc) {
    pc.PauseBoth? || pc.PausePt? || pc.Back? || pc.WakeBoth? || pc.WakeDone?
  }

  // The process owns the sleep-lock.
  predicate Owns(pc: Pc) {
    pc.Took? || pc.Stamped? || pc.Owner? || pc.Unlock? || pc.Clear?
  }

  // lk->pid names the process.
  predicate HasStamp(pc: Pc) {
    pc.Stamped? || pc.Owner? || pc.Unlock? || pc.Clear? || pc.Cleared?
  }

  // The process has cleared locked and is about to run wakeup1.
  predicate WillWake(pc: Pc) {
    pc.Cleared? || pc.Wake? || pc.WakeBoth?
  }

  predicate GoingToSleep(pc: Pc) {
    pc.Pause? || pc.PauseBoth? || pc.PausePt? || pc.Asleep?
  }

  predicate Enabled(s: Sys, step: Step) {
    match step
    case Run(p) =>
      p in s.procs &&
      (match s.procs[p]
       case Want => s.lk == Nobody
       case Unlock => s.lk == Nobody
       case Pause => s.pt == Nobody
       case Wake => s.pt == Nobody
       case Woken => s.pt == Nobody   // the scheduler takes ptable.lock for it
       case Asleep => false
       case _ => true)
    case OutsideLk => s.lk == Nobody
    case OutsideLkDone => s.lk == Outside
    case OutsidePt => s.pt == Nobody
    case OutsidePtDone => s.pt == Outside
    case Kill(p) => s.pt == Outside && p in s.procs
  }

  function At(s: Sys, p: nat, pc: Pc): Sys {
    s.(procs := s.procs[p := pc])
  }

  // wakeup1: every process sleeping on the lock becomes runnable.
  function WakeAll(procs: map<nat, Pc>): map<nat, Pc> {
    map p | p in procs :: if procs[p] == Asleep then Woken else procs[p]
  }

  function RunStep(s: Sys, p: nat): Sys
    requires p in s.procs
  {
    match s.procs[p]
    case Idle => At(s, p, Want)
    case Want => At(s, p, Test).(lk := Proc(p))
    case Test => if s.locked then At(s, p, Pause) else At(s, p, Took).(locked := true)
    case Pause => At(s, p, PauseBoth).(pt := Proc(p))
    case PauseBoth => At(s, p, PausePt).(lk := Nobody)
    case PausePt => At(s, p, Asleep).(pt := Outside)   // sched: the scheduler now holds ptable.lock
    case Woken => At(s, p, Back).(pt := Proc(p))
    case Back => At(s, p, Want).(pt := Nobody)
    case Took => At(s, p, Stamped).(pid := p)
    case Stamped => At(s, p, Owner).(lk := Nobody)
    case Owner => At(s, p, Unlock)
    case Unlock => At(s, p, Clear).(lk := Proc(p))
    case Clear => At(s, p, Cleared).(locked := false)
    case Cleared => At(s, p, Wake).(pid := 0)
    case Wake => At(s, p, WakeBoth).(pt := Proc(p))
    case WakeBoth => At(s, p, WakeDone).(procs := WakeAll(s.procs)[p := WakeDone])
    case WakeDone => At(s, p, Leave).(pt := Nobody)
    case Leave => At(s, p, Idle).(lk := Nobody)
    case Asleep => s
  }

  function Apply(s: Sys, step: Step): Sys
    requires Enabled(s, step)
  {
    match step
    case Run(p) => RunStep(s, p)
    case OutsideLk => s.(lk := Outside)
    case OutsideLkDone => s.(lk := Nobody)
    case OutsidePt => s.(pt := Outside)
    case OutsidePtDone => s.(pt := Nobody)
    case Kill(p) => if s.procs[p] == Asleep then At(s, p, Woken) else s
  }

  ghost predicate Init(s: Sys) {
    && s.lk == Nobody && s.pt == Nobody && !s.locked && s.pid == 0
    && 0 !in s.procs && forall p :: p in s.procs ==> s.procs[p] == Idle
  }

  // ---------- invariant ----------

  ghost predicate SpinInv(s: Sys) {
    && (forall p :: p in s.procs ==> (HasLk(s.procs[p]) <==> s.lk == Proc(p)))
    && (forall p :: p in s.procs ==> (HasPt(s.procs[p]) <==> s.pt == Proc(p)))
    && (s.lk.Proc? ==> s.lk.p in s.procs) && (s.pt.Proc? ==> s.pt.p in s.procs)
  }

  ghost predicate SomeOwner(s: Sys) {
    exists p :: p in s.procs && Owns(s.procs[p])
  }

  ghost predicate OwnerInv(s: Sys) {
    && (s.locked <==> SomeOwner(s))
    && (forall p, q :: p in s.procs && q in s.procs && Owns(s.procs[p]) && Owns(s.procs[q]) ==> p == q)
    && (forall p :: p in s.procs && HasStamp(s.procs[p]) ==> s.pid == p)
    && (s.pid == 0 || (s.pid in s.procs && HasStamp(s.procs[s.pid])))
    && 0 !in s.procs
  }

  // A wakeup is still to come: some process has cleared locked and not yet run wakeup1.
  ghost predicate WakeupDue(s: Sys) {
    exists r :: r in s.procs && WillWake(s.procs[r])
  }

  ghost predicate WaiterInv(s: Sys) {
    && (forall p :: p in s.procs && (s.procs[p].Pause? || s.procs[p].PauseBoth?) ==> s.locked)
    && (forall p :: p in s.procs && (s.procs[p].PausePt? || s.procs[p].Asleep?) ==> s.locked || WakeupDue(s))
  }

  ghost predicate Inv(s: Sys) {
    SpinInv(s) && OwnerInv(s) && WaiterInv(s)
  }

  lemma InitInv(s: Sys)
    requires Init(s)
    ensures Inv(s)
  {
  }

  // No process other than p is the holder.
  predicate NotOf(h: Holder, p: nat) {
    h.Proc? ==> h.p == p
  }

  // A step of p moves p and at most wakes sleepers, and changes a spinlock only for p.
  ghost predicate Moves(s: Sys, s': Sys, p: nat) {
    && p in s.procs && s'.procs.Keys == s.procs.Keys
    && (forall q :: q in s.procs && q != p ==> s'.procs[q] == s.procs[q] || (s.procs[q].Asleep? && s'.procs[q].Woken?))
    && (s'.lk == s.lk || (NotOf(s.lk, p) && NotOf(s'.lk, p)))
    && (s'.pt == s.pt || (NotOf(s.pt, p) && NotOf(s'.pt, p)))
    && (HasLk(s'.procs[p]) <==> s'.lk == Proc(p)) && (HasPt(s'.procs[p]) <==> s'.pt == Proc(p))
  }

  lemma RunMoves(s: Sys, p: nat)
    requires SpinInv(s) && Enabled(s, Run(p))
    ensures Moves(s, RunStep(s, p), p)
  {
    assert HasLk(s.procs[p]) <==> s.lk == Proc(p);
    assert HasPt(s.procs[p]) <==> s.pt == Proc(p);
    RunOthers(s, p);
    RunLocks(s, p, s.procs[p]);
  }

  lemma RunOthers(s: Sys, p: nat)
    requires p in s.procs
    ensures var s' := RunStep(s, p);
      && s'.procs.Keys == s.procs.Keys
      && forall q :: q in s.procs && q != p ==> s'.procs[q] == s.procs[q] || (s.procs[q].Asleep? && s'.procs[q].Woken?)
  {
    RunProcs(s, p);
  }

  lemma RunProcs(s: Sys, p: nat)
    requires p in s.procs
    ensures p in RunStep(s, p).procs
    ensures RunStep(s, p).procs == (if s.procs[p].WakeBoth? then WakeAll(s.procs) else s.procs)[p := RunStep(s, p).procs[p]]
  {
  }

  lemma RunLocks(s: Sys, p: nat, pc: Pc)
    requires Enabled(s, Run(p)) && pc == s.procs[p]
    requires (HasLk(pc) <==> s.lk == Proc(p)) && (HasPt(pc) <==> s.pt == Proc(p))
    ensures var s' := RunStep(s, p);
      && p in s'.procs
      && (s'.lk == s.lk || (NotOf(s.lk, p) && NotOf(s'.lk, p))) && (s'.pt == s.pt || (NotOf(s.pt, p) && NotOf(s'.pt, p)))
      && (HasLk(s'.procs[p]) <==> s'.lk == Proc(p)) && (HasPt(s'.procs[p]) <==> s'.pt == Proc(p))
  {
    RunLk(s, p, pc);
    RunPt(s, p, pc);
    hide RunStep, HasLk, HasPt;
  }

  lemma RunLk(s: Sys, p: nat, pc: Pc)
    requires Enabled(s, Run(p)) && pc == s.procs[p] && (HasLk(pc) <==> s.lk == Proc(p))
    ensures var s' := RunStep(s, p);
      p in s'.procs && (s'.lk == s.lk || (NotOf(s.lk, p) && NotOf(s'.lk, p))) && (HasLk(s'.procs[p]) <==> s'.lk == Proc(p))
  {
  }

  lemma RunPt(s: Sys, p: nat, pc: Pc)
    requires Enabled(s, Run(p)) && pc == s.procs[p] && (HasPt(pc) <==> s.pt == Proc(p))
    ensures var s' := RunStep(s, p);
      p in s'.procs && (s'.pt == s.pt || (NotOf(s.pt, p) && NotOf(s'.pt, p))) && (HasPt(s'.procs[p]) <==> s'.pt == Proc(p))
  {
  }

  lemma MovesSpin(s: Sys, s': Sys, p: nat)
    requires SpinInv(s) && Moves(s, s', p)
    ensures SpinInv(s')
  {
    forall q | q in s'.procs && q != p
      ensures (HasLk(s'.procs[q]) <==> s'.lk == Proc(q)) && (HasPt(s'.procs[q]) <==> s'.pt == Proc(q))
    {
      assert HasLk(s.procs[q]) <==> s.lk == Proc(q);
      assert HasPt(s.procs[q]) <==> s.pt == Proc(q);
    }
  }

  // Ownership changes hands only through locked.
  ghost predicate OwnerMoves(s: Sys, s': Sys, p: nat)
    requires p in s.procs && p in s'.procs
  {
    && (Owns(s'.procs[p]) <==> if s.procs[p].Test? then !s.locked else Owns(s.procs[p]) && !s.procs[p].Clear?)
    && (s'.locked <==> if s.procs[p].Test? then true else s.locked && !s.procs[p].Clear?)
    && (HasStamp(s'.procs[p]) ==> s'.pid == p)
    && (s'.pid == s.pid || s.procs[p].Took? || s.procs[p].Cleared?)
    && (s'.pid == p ==> HasStamp(s'.procs[p])) && (s'.pid == s.pid || s'.pid == p || s'.pid == 0)
  }

  lemma RunOwnerMoves(s: Sys, p: nat)
    requires OwnerInv(s) && Enabled(s, Run(p))
    ensures p in RunStep(s, p).procs && OwnerMoves(s, RunStep(s, p), p)
  {
    assert HasStamp(s.procs[p]) <==> s.pid == p;
  }

  lemma MovesOwner(s: Sys, s': Sys, p: nat)
    requires SpinInv(s) && OwnerInv(s) && Moves(s, s', p) && OwnerMoves(s, s', p)
    ensures OwnerInv(s')
  {
    assert forall q :: q in s.procs && q != p ==> (Owns(s'.procs[q]) <==> Owns(s.procs[q]));
    assert SomeOwner(s') <==> s'.locked by {
      if s.locked {
        var q :| q in s.procs && Owns(s.procs[q]);
        assert q != p ==> Owns(s'.procs[q]);
      }
    }
    forall q | q in s'.procs && HasStamp(s'.procs[q]) && q != p ensures s'.pid == q {
      assert s.procs[q] == s'.procs[q];
      StampedAlone(s, p, q);
    }
  }

  // While q is the stamped process, nobody else is about to change lk->pid.
  lemma StampedAlone(s: Sys, p: nat, q: nat)
    requires SpinInv(s) && OwnerInv(s) && p in s.procs && q in s.procs && p != q && HasStamp(s.procs[q])
    ensures !s.procs[p].Took? && !s.procs[p].Cleared?
  {
    assert HasLk(s.procs[p]) ==> s.lk == Proc(p);
    assert HasLk(s.procs[q]) ==> s.lk == Proc(q);
    assert s.procs[p].Cleared? ==> s.pid == p;
  }

  // What the step of p means for processes on their way to sleep.
  ghost predicate WaiterMoves(s: Sys, s': Sys, p: nat)
    requires p in s.procs && p in s'.procs
  {
    var pc, pc' := s.procs[p], s'.procs[p];
    && (s.locked && !s'.locked ==> pc.Clear? && WillWake(pc'))
    && (WillWake(pc) ==> WillWake(pc') || (pc.WakeBoth? && forall q :: q in s'.procs ==> !s'.procs[q].Asleep?))
    && (pc'.Pause? ==> s.locked) && (pc'.PauseBoth? ==> pc.Pause?)
    && (pc'.PausePt? ==> pc.PauseBoth?) && (pc'.Asleep? ==> pc.PausePt?)
  }

  lemma RunWaiterMoves(s: Sys, p: nat)
    requires Enabled(s, Run(p))
    ensures p in RunStep(s, p).procs && WaiterMoves(s, RunStep(s, p), p)
  {
  }

  lemma MovesWaiter(s: Sys, s': Sys, p: nat)
    requires SpinInv(s) && WaiterInv(s) && Moves(s, s', p) && WaiterMoves(s, s', p)
    ensures WaiterInv(s')
  {
    if WakeupDue(s) && !s.procs[p].WakeBoth? {
      var r :| r in s.procs && WillWake(s.procs[r]);
      assert WillWake(s'.procs[r]);
    }
    if s.locked && !s'.locked { assert WillWake(s'.procs[p]); }
    forall q | q in s'.procs && q != p ensures
      && (s'.procs[q].Pause? || s'.procs[q].PauseBoth? ==> s'.locked)
      && (s'.procs[q].PausePt? || s'.procs[q].Asleep? ==> s'.locked || WakeupDue(s'))
    {
      assert HasLk(s.procs[q]) <==> s.lk == Proc(q);
      assert HasPt(s.procs[q]) <==> s.pt == Proc(q);
      assert HasLk(s.procs[p]) <==> s.lk == Proc(p);
      assert HasPt(s.procs[p]) <==> s.pt == Proc(p);
      assert s'.procs[q] == s.procs[q] || s'.procs[q].Woken?;
    }
  }

  // A step outside the protocol at most wakes sleepers.
  ghost predicate Outsider(s: Sys, s': Sys) {
    && s'.procs.Keys == s.procs.Keys && s'.locked == s.locked && s'.pid == s.pid
    && (forall q :: q in s.procs ==> s'.procs[q] == s.procs[q] || (s.procs[q].Asleep? && s'.procs[q].Woken?))
    && (s'.lk == s.lk || (!s.lk.Proc? && !s'.lk.Proc?))
    && (s'.pt == s.pt || (!s.pt.Proc? && !s'.pt.Proc?))
  }

  lemma OutsiderSpin(s: Sys, s': Sys)
    requires SpinInv(s) && Outsider(s, s')
    ensures SpinInv(s')
  {
    forall q | q in s'.procs
      ensures (HasLk(s'.procs[q]) <==> s'.lk == Proc(q)) && (HasPt(s'.procs[q]) <==> s'.pt == Proc(q))
    {
      assert HasLk(s.procs[q]) <==> s.lk == Proc(q);
      assert HasPt(s.procs[q]) <==> s.pt == Proc(q);
    }
  }

  lemma OutsiderOwner(s: Sys, s': Sys)
    requires OwnerInv(s) && Outsider(s, s')
    ensures OwnerInv(s')
  {
    if s.locked {
      var q :| q in s.procs && Owns(s.procs[q]);
      assert Owns(s'.procs[q]);
    }
  }

  lemma OutsiderWaiter(s: Sys, s': Sys)
    requires WaiterInv(s) && Outsider(s, s')
    ensures WaiterInv(s')
  {
    if WakeupDue(s) {
      var r :| r in s.procs && WillWake(s.procs[r]);
      assert WillWake(s'.procs[r]);
    }
  }

  lemma StepInv(s: Sys, step: Step)
    requires Inv(s) && Enabled(s, step)
    ensures Inv(Apply(s, step))
  {
    if step.Run? {
      RunMoves(s, step.p);
      MovesSpin(s, RunStep(s, step.p), step.p);
      RunOwnerMoves(s, step.p);
      MovesOwner(s, RunStep(s, step.p), step.p);
      RunWaiterMoves(s, step.p);
      MovesWaiter(s, RunStep(s, step.p), step.p);
    } else {
      OutsiderSpin(s, Apply(s, step));
      OutsiderOwner(s, Apply(s, step));
      OutsiderWaiter(s, Apply(s, step));
    }
  }

  // ---------- whole runs ----------

  ghost predicate Runs(s: Sys, steps: seq<Step>)
    decreases |steps|
  {
    steps == [] || (Enabled(s, steps[0]) && Runs(Apply(s, steps[0]), steps[1..]))
  }

  ghost function After(s: Sys, steps: seq<Step>): Sys
    requires Runs(s, steps)
    decreases |steps|
  {
    if steps == [] then s else After(Apply(s, steps[0]), steps[1..])
  }

  lemma {:induction false} RunInv(s: Sys, steps: seq<Step>)
    requires Inv(s) && Runs(s, steps)
    ensures Inv(After(s, steps))
    decreases |steps|
  {
    if steps != [] {
      StepInv(s, steps[0]);
      RunInv(Apply(s, steps[0]), steps[1..]);
    }
  }

  /** At most one process holds the sleep-lock, and lk->pid names it once acquiresleep has returned. */
  lemma MutualExclusion(s: Sys, steps: seq<Step>, p: nat, q: nat)
    requires Init(s) && Runs(s, steps)
    requires p in After(s, steps).procs && q in After(s, steps).procs
    requires Owns(After(s, steps).procs[p]) && Owns(After(s, steps).procs[q])
    ensures p == q && After(s, steps).locked
    ensures After(s, steps).procs[p] == Owner ==> After(s, steps).pid == p
  {
    InitInv(s);
    RunInv(s, steps);
  }

  /** No lost wakeup: whenever the inner spinlock is free and the sleep-lock is not held, nobody sleeps
      on it or is on its way to sleep. */
  lemma NoLostWakeup(s: Sys, steps: seq<Step>)
    requires Init(s) && Runs(s, steps) && After(s, steps).lk == Nobody && !After(s, steps).locked
    ensures forall p :: p in After(s, steps).procs ==>
      !GoingToSleep(After(s, steps).procs[p])
  {
    InitInv(s);
    RunInv(s, steps);
  }

  // ---------- what the calls promise ----------

  // 0: outside, 1: inside acquiresleep, 2: acquiresleep has returned, 3: inside releasesleep.
  function Stage(pc: Pc): nat {
    match pc
    case Idle => 0
    case Owner => 2
    case Unlock => 3 case Clear => 3 case Cleared => 3 case Wake => 3 case WakeBoth => 3 case WakeDone => 3 case Leave => 3
    case _ => 1
  }

  /** A process goes through the calls in order and by its own steps only: acquiresleep returns with the lock
      held and stamped, whatever kills and wakeups come in between, and releasesleep returns after it. */
  lemma StageExactly(s: Sys, step: Step, p: nat)
    requires Inv(s) && Enabled(s, step) && p in s.procs
    ensures p in Apply(s, step).procs
    ensures var s' := Apply(s, step); var from, to := Stage(s.procs[p]), Stage(s'.procs[p]);
      && (to == from || (step == Run(p) && to == (from + 1) % 4))
      && (from == 1 && to == 2 ==> s'.locked && s'.pid == p)
      && (step == Run(p) && from % 2 == 0 ==> to == from + 1)
  {
    if step.Run? {
      StepInv(s, step);
      if step.p == p {
        StageRun(s, p);
        if Apply(s, step).procs[p] == Owner { OwnerFacts(Apply(s, step), p); }
      } else {
        RunOthers(s, step.p);
      }
      hide RunStep, Inv;
    }
  }

  lemma StageRun(s: Sys, p: nat)
    requires Enabled(s, Run(p))
    ensures p in RunStep(s, p).procs
    ensures var from, to := Stage(s.procs[p]), Stage(RunStep(s, p).procs[p]);
      (to == from || to == (from + 1) % 4) && (from % 2 == 0 ==> to == from + 1) && (to == 2 ==> RunStep(s, p).procs[p] == Owner)
  {
  }

  lemma OwnerFacts(s: Sys, p: nat)
    requires Inv(s) && p in s.procs && s.procs[p] == Owner
    ensures s.locked && s.pid == p
  {
    assert HasStamp(s.procs[p]) && Owns(s.procs[p]);
  }

  /** holdingsleep: with the spinlock free, locked and pid tell exactly whether the process holds the lock. */
  lemma HoldingExactly(s: Sys, steps: seq<Step>, p: nat)
    requires Init(s) && Runs(s, steps) && After(s, steps).lk == Nobody && p in After(s, steps).procs
    ensures var e := After(s, steps);
      (e.locked && e.pid == p <==> e.procs[p] == Owner || e.procs[p] == Unlock) && (!e.locked ==> e.pid == 0)
  {
    InitInv(s);
    RunInv(s, steps);
    var e := After(s, steps);
    assert forall q :: q in e.procs ==> !HasLk(e.procs[q]);
    if e.locked {
      var q :| q in e.procs && Owns(e.procs[q]);
      assert !HasLk(e.procs[q]);
    }
  }

  /** kill gets a sleeper out of its sleep, and touches nobody else. */
  lemma KillWakes(s: Sys, p: nat, q: nat)
    requires s.pt == Outside && p in s.procs && q in s.procs
    ensures Enabled(s, Kill(p))
    ensures var s' := Apply(s, Kill(p));
      && q in s'.procs && s'.procs[q] == (if q == p && s.procs[p] == Asleep then Woken else s.procs[q])
      && s'.lk == s.lk && s'.pt == s.pt && s'.locked == s.locked && s'.pid == s.pid
  {
  }

  // ---------- nobody is stuck ----------

  ghost predicate Reaches(s: Sys, t: Sys) {
    exists steps :: Runs(s, steps) && After(s, steps) == t
  }

  lemma ReachesSelf(s: Sys)
    ensures Reaches(s, s)
  {
    assert Runs(s, []) && After(s, []) == s;
  }

  lemma ReachesStep(s: Sys, step: Step, t: Sys)
    requires Enabled(s, step) && Reaches(Apply(s, step), t)
    ensures Reaches(s, t)
  {
    var rest :| Runs(Apply(s, step), rest) && After(Apply(s, step), rest) == t;
    assert ([step] + rest)[1..] == rest;
    assert Runs(s, [step] + rest) && After(s, [step] + rest) == t;
  }

  lemma {:induction false} ReachesOn(s: Sys, steps: seq<Step>, u: Sys)
    requires Runs(s, steps) && Reaches(After(s, steps), u)
    ensures Reaches(s, u)
    decreases |steps|
  {
    if steps != [] {
      ReachesOn(Apply(s, steps[0]), steps[1..], u);
      ReachesStep(s, steps[0], u);
    }
  }

  lemma ReachesTrans(s: Sys, t: Sys, u: Sys)
    requires Reaches(s, t) && Reaches(t, u)
    ensures Reaches(s, u)
  {
    var steps :| Runs(s, steps) && After(s, steps) == t;
    ReachesOn(s, steps, u);
  }

  // Processes that neither hold nor want a spinlock have not moved.
  ghost predicate Calm(s: Sys, t: Sys) {
    && t.procs.Keys == s.procs.Keys
    && forall q :: q in s.procs && (s.procs[q] == Idle || s.procs[q] == Owner) ==> t.procs[q] == s.procs[q]
  }

  // How far a process is from giving up the spinlock it holds.
  function LkRank(pc: Pc): nat {
    match pc
    case Test => 12 case Took => 11 case Stamped => 10
    case Clear => 9 case Cleared => 8 case Wake => 7 case WakeBoth => 6 case WakeDone => 5 case Leave => 4
    case Pause => 3 case PauseBoth => 2
    case _ => 0
  }

  function PtRank(pc: Pc): nat {
    match pc
    case PauseBoth => 3 case PausePt => 2 case WakeBoth => 3 case WakeDone => 2 case Back => 1
    case _ => 0
  }

  // The sleep-lock is p's, or will be once it is past the test.
  predicate Winning(s: Sys, p: nat) {
    p in s.procs && (s.procs[p].Took? || s.procs[p].Stamped? || (s.procs[p].Test? && !s.locked))
  }

  predicate Releasing(s: Sys, p: nat) {
    p in s.procs && Stage(s.procs[p]) == 3 && s.procs[p] != Unlock
  }

  // What holds of p while the spinlocks are being freed: it is on its way to Owner or to Idle.
  ghost predicate OnCourse(s: Sys, t: Sys, p: nat) {
    && (Winning(s, p) ==> Winning(t, p) || (p in t.procs && t.procs[p] == Owner))
    && (Releasing(s, p) ==> Releasing(t, p) || (p in t.procs && t.procs[p] == Idle))
  }

  // From s to t, lk->lk has stayed with its holder or has been given up, and the holder is on course.
  ghost predicate Eases(s: Sys, t: Sys) {
    && Calm(s, t) && (t.lk == s.lk || t.lk == Nobody)
    && (s.lk.Proc? ==> OnCourse(s, t, s.lk.p))
    && (s.lk.Proc? && t.lk == s.lk && s.lk.p in s.procs && s.lk.p in t.procs ==> LkRank(t.procs[s.lk.p]) <= LkRank(s.procs[s.lk.p]))
  }

  lemma EasesTrans(s: Sys, s1: Sys, t: Sys)
    requires Inv(s) && Inv(s1) && Eases(s, s1) && Eases(s1, t)
    ensures Eases(s, t)
  {
    if s.lk.Proc? {
      HolderHas(s, s.lk.p);
      if s1.lk == Nobody { NotHolding(s1, s.lk.p); }
    }
    hide Inv, LkRank, Winning, Releasing;
  }

  lemma EasesSelf(s: Sys)
    ensures Eases(s, s)
  {
  }

  lemma {:induction false} FreePt(s: Sys) returns (t: Sys)
    requires Inv(s)
    ensures Inv(t) && Reaches(s, t) && Eases(s, t) && t.pt == Nobody
    decreases if s.pt.Proc? && s.pt.p in s.procs then 2 + PtRank(s.procs[s.pt.p]) else if s.pt.Outside? then 1 else 0
  {
    EasesSelf(s);
    ReachesSelf(s);
    match s.pt
    case Nobody =>
      t := s;
    case Outside =>
      StepInv(s, OutsidePtDone);
      t := s.(pt := Nobody);
      ReachesSelf(t);
      ReachesStep(s, OutsidePtDone, t);
    case Proc(p) =>
      assert p in s.procs && HasPt(s.procs[p]);
      var s1 := Apply(s, Run(p));
      PtMoves(s, p);
      StepInv(s, Run(p));
      hide RunStep, Inv, Eases, HasPt;
      t := FreePt(s1);
      EasesTrans(s, s1, t);
      ReachesStep(s, Run(p), t);
  }

  // A step of the process that holds ptable.lock.
  lemma PtMoves(s: Sys, p: nat)
    requires Inv(s) && p in s.procs && HasPt(s.procs[p])
    ensures Enabled(s, Run(p))
    ensures var s1 := RunStep(s, p);
      && Eases(s, s1) && p in s1.procs
      && (s1.pt == Proc(p) ==> PtRank(s1.procs[p]) < PtRank(s.procs[p])) && (s1.pt.Proc? ==> s1.pt == Proc(p))
  {
    RunOthers(s, p);
    assert s.pt == Proc(p);
    if s.lk.Proc? {
      assert HasLk(s.procs[s.lk.p]);
      PtOnCourse(s, p, s.lk.p);
    }
    hide OnCourse;
  }

  lemma PtOnCourse(s: Sys, p: nat, q: nat)
    requires p in s.procs && HasPt(s.procs[p]) && q in s.procs && HasLk(s.procs[q])
    ensures var s1 := RunStep(s, p);
      OnCourse(s, s1, q) && q in s1.procs && (p != q || s1.lk == s.lk ==> LkRank(s1.procs[q]) <= LkRank(s.procs[q]))
  {
    if p != q {
      RunOthers(s, p);
      LockedKept(s, p);
      hide RunStep;
    }
  }

  lemma LockedKept(s: Sys, p: nat)
    requires p in s.procs && HasPt(s.procs[p])
    ensures RunStep(s, p).locked == s.locked
  {
  }

  // From s to t both spinlocks have come free, and the holder of lk->lk got where it was going.
  ghost predicate Settles(s: Sys, t: Sys) {
    && Calm(s, t) && t.lk == Nobody && t.pt == Nobody
    && (s.lk.Proc? && Winning(s, s.lk.p) ==> s.lk.p in t.procs && t.procs[s.lk.p] == Owner)
    && (s.lk.Proc? && Releasing(s, s.lk.p) ==> s.lk.p in t.procs && t.procs[s.lk.p] == Idle)
  }

  lemma EasesSettles(s: Sys, s1: Sys, t: Sys)
    requires Inv(s) && Inv(s1) && Eases(s, s1) && Settles(s1, t)
    ensures Settles(s, t)
  {
    if s.lk.Proc? {
      HolderHas(s, s.lk.p);
      if s1.lk == Nobody { NotHolding(s1, s.lk.p); }
    }
    hide Inv, LkRank, Winning, Releasing;
  }

  lemma NotSettling(s: Sys)
    requires s.lk == Nobody && s.pt == Nobody
    ensures Settles(s, s)
  {
  }

  lemma {:induction false} FreeBoth(s: Sys) returns (t: Sys)
    requires Inv(s)
    ensures Inv(t) && Reaches(s, t) && Settles(s, t)
    decreases if s.lk.Proc? && s.lk.p in s.procs then 2 + LkRank(s.procs[s.lk.p]) else if s.lk.Outside? then 1 else 0
  {
    hide RunStep, Inv, Winning, Releasing, Reaches;
    var s1 := FreePt(s);
    match s1.lk
    case Nobody =>
      t := s1;
      NotSettling(s1);
      EasesSettles(s, s1, t);
    case Outside =>
      StepInv(s1, OutsideLkDone);
      t := FreeBoth(s1.(lk := Nobody));
      ReachesStep(s1, OutsideLkDone, t);
      ReachesTrans(s, s1, t);
    case Proc(p) =>
      HolderHas(s1, p);
      HolderHas(s, p);
      var s2 := Apply(s1, Run(p));
      LkMoves(s1, p);
      StepInv(s1, Run(p));
      hide Calm;
      t := FreeBoth(s2);
      EasesSettles(s1, s2, t);
      EasesSettles(s, s1, t);
      ReachesStep(s1, Run(p), t);
      ReachesTrans(s, s1, t);
  }

  lemma HolderHas(s: Sys, p: nat)
    requires Inv(s) && s.lk == Proc(p)
    ensures p in s.procs && HasLk(s.procs[p])
  {
  }

  lemma NotHolding(s: Sys, p: nat)
    requires Inv(s) && p in s.procs && s.lk == Nobody
    ensures !Winning(s, p) && !Releasing(s, p)
  {
    assert !HasLk(s.procs[p]);
  }

  // A step of the process that holds lk->lk, with ptable.lock free.
  lemma LkMoves(s: Sys, p: nat)
    requires Inv(s) && p in s.procs && HasLk(s.procs[p]) && s.pt == Nobody
    ensures Enabled(s, Run(p))
    ensures var s1 := RunStep(s, p);
      && Eases(s, s1) && p in s1.procs && (s1.lk == Proc(p) ==> LkRank(s1.procs[p]) < LkRank(s.procs[p]))
  {
    RunOthers(s, p);
    assert s.lk == Proc(p);
    assert HasPt(s.procs[p]) <==> s.pt == Proc(p);
    LkOnCourse(s, p);
    hide OnCourse, HasPt, Inv;
  }

  lemma LkOnCourse(s: Sys, p: nat)
    requires p in s.procs && HasLk(s.procs[p]) && !HasPt(s.procs[p])
    ensures OnCourse(s, RunStep(s, p), p)
  {
  }

  // From a moment with both spinlocks free, the holder of the sleep-lock can give it back.
  lemma GivesBack(s: Sys, p: nat) returns (t: Sys)
    requires Inv(s) && s.lk == Nobody && s.pt == Nobody && p in s.procs && (s.procs[p] == Owner || s.procs[p] == Unlock)
    ensures Inv(t) && Reaches(s, t) && t.lk == Nobody && t.pt == Nobody && IdleGrows(s, t, p)
  {
    if s.procs[p] == Unlock {
      t := Unlocks(s, p);
    } else {
      var s1 := At(s, p, Unlock);
      assert s1 == Apply(s, Run(p));
      StepInv(s, Run(p));
      hide Inv, RunStep;
      t := Unlocks(s1, p);
      ReachesStep(s, Run(p), t);
    }
  }

  lemma Unlocks(s: Sys, p: nat) returns (t: Sys)
    requires Inv(s) && s.lk == Nobody && s.pt == Nobody && p in s.procs && s.procs[p] == Unlock
    ensures Inv(t) && Reaches(s, t) && t.lk == Nobody && t.pt == Nobody && IdleGrows(s, t, p)
  {
    hide Inv, Reaches;
    var s1 := At(s, p, Clear).(lk := Proc(p));
    assert s1 == Apply(s, Run(p)) && Releasing(s1, p);
    StepInv(s, Run(p));
    hide Inv, RunStep, Releasing, Winning;
    t := FreeBoth(s1);
    ReachesStep(s, Run(p), t);
  }

  // p has finished, and nobody has started.
  ghost predicate IdleGrows(s: Sys, t: Sys, p: nat) {
    && t.procs.Keys == s.procs.Keys && p in s.procs && s.procs[p] != Idle && t.procs[p] == Idle
    && forall q :: q in s.procs && s.procs[q] == Idle ==> t.procs[q] == Idle
  }

  // A process that waits for a free sleep-lock can get it.
  lemma Gets(s: Sys, p: nat) returns (t: Sys)
    requires Inv(s) && s.lk == Nobody && s.pt == Nobody && !s.locked && p in s.procs && s.procs[p] == Want
    ensures Inv(t) && Reaches(s, t) && t.lk == Nobody && t.pt == Nobody && Calm(s, t) && t.procs[p] == Owner
  {
    hide Inv, Reaches;
    var s1 := At(s, p, Test).(lk := Proc(p));
    assert s1 == Apply(s, Run(p)) && Winning(s1, p);
    StepInv(s, Run(p));
    hide Inv, RunStep;
    t := FreeBoth(s1);
    ReachesStep(s, Run(p), t);
  }

  lemma Returns(s: Sys, p: nat) returns (t: Sys)
    requires Inv(s) && s.lk == Nobody && s.pt == Nobody && p in s.procs && s.procs[p] == Woken
    ensures Inv(t) && Reaches(s, t) && t.lk == Nobody && t.pt == Nobody && Calm(s, t) && t.procs[p] == Want && t.locked == s.locked
  {
    hide Inv, Reaches;
    var s1 := At(s, p, Back).(pt := Proc(p));
    assert s1 == Apply(s, Run(p));
    StepInv(s, Run(p));
    t := At(s1, p, Want).(pt := Nobody);
    assert t == Apply(s1, Run(p));
    StepInv(s1, Run(p));
    hide Inv, RunStep;
    ReachesSelf(t);
    ReachesStep(s1, Run(p), t);
    ReachesStep(s, Run(p), t);
  }

  ghost function Busy(s: Sys): set<nat> {
    set p | p in s.procs && s.procs[p] != Idle
  }

  lemma BusyShrinks(s: Sys, t: Sys, p: nat)
    requires IdleGrows(s, t, p)
    ensures |Busy(t)| < |Busy(s)|
  {
    assert Busy(t) <= Busy(s) - {p};
    SubsetSize(Busy(t), Busy(s) - {p});
  }

  lemma SubsetSize(x: set<nat>, y: set<nat>)
    requires x <= y
    ensures |x| <= |y|
  {
    assert y == x + (y - x);
  }

  // One of the processes can be brought to the end of what it is doing.
  lemma OneFinishes(s: Sys) returns (t: Sys)
    requires Inv(s) && s.lk == Nobody && s.pt == Nobody && Busy(s) != {}
    ensures Inv(t) && Reaches(s, t) && t.lk == Nobody && t.pt == Nobody && |Busy(t)| < |Busy(s)|
  {
    if s.locked {
      var p :| p in s.procs && Owns(s.procs[p]);
      assert !HasLk(s.procs[p]);
      t := GivesBack(s, p);
      BusyShrinks(s, t, p);
    } else {
      var p :| p in Busy(s);
      FreeMeansWaiting(s, p);
      var s1 := s;
      ReachesSelf(s);
      if s.procs[p] == Woken { s1 := Returns(s, p); }
      var s2 := Gets(s1, p);
      t := GivesBack(s2, p);
      hide Inv;
      ReachesTrans(s1, s2, t);
      ReachesTrans(s, s1, t);
      BusyShrinks(s, t, p);
    }
  }

  lemma FreeMeansWaiting(s: Sys, p: nat)
    requires Inv(s) && s.lk == Nobody && s.pt == Nobody && !s.locked && p in Busy(s)
    ensures s.procs[p] == Want || s.procs[p] == Woken
  {
    assert !HasLk(s.procs[p]) && !HasPt(s.procs[p]) && !Owns(s.procs[p]);
    assert forall r :: r in s.procs ==> !HasLk(s.procs[r]);
    assert !WakeupDue(s);
  }

  lemma {:induction false} AllFinish(s: Sys) returns (t: Sys)
    requires Inv(s) && s.lk == Nobody && s.pt == Nobody
    ensures Reaches(s, t) && Inv(t) && Busy(t) == {} && t.lk == Nobody && t.pt == Nobody
    decreases |Busy(s)|
  {
    if Busy(s) == {} {
      t := s;
      ReachesSelf(s);
    } else {
      var s1 := OneFinishes(s);
      t := AllFinish(s1);
      ReachesTrans(s, s1, t);
    }
  }

  /** Nobody is ever stuck: from every reachable state the processes can all get through acquiresleep and
      releasesleep, which leaves the sleep-lock free. */
  lemma NobodyStuck(s: Sys, steps: seq<Step>) returns (t: Sys)
    requires Init(s) && Runs(s, steps)
    ensures Reaches(After(s, steps), t) && !t.locked && t.lk == Nobody && t.pt == Nobody
    ensures t.procs.Keys == s.procs.Keys && forall p :: p in t.procs ==> t.procs[p] == Idle
  {
    InitInv(s);
    RunInv(s, steps);
    var s1 := FreeBoth(After(s, steps));
    t := AllFinish(s1);
    ReachesTrans(After(s, steps), s1, t);
    KeysKept(s, steps);
    ReachesKeys(After(s, steps), t);
    forall p | p in t.procs ensures t.procs[p] == Idle { assert p !in Busy(t); }
  }

  lemma {:induction false} KeysKept(s: Sys, steps: seq<Step>)
    requires Runs(s, steps)
    ensures After(s, steps).procs.Keys == s.procs.Keys
    decreases |steps|
  {
    if steps != [] {
      if steps[0].Run? { RunOthers(s, steps[0].p); }
      KeysKept(Apply(s, steps[0]), steps[1..]);
    }
  }

  lemma ReachesKeys(s: Sys, t: Sys)
    requires Reaches(s, t)
    ensures t.procs.Keys == s.procs.Keys
  {
    var steps :| Runs(s, steps) && After(s, steps) == t;
    KeysKept(s, steps);
  }
}
