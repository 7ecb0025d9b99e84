/** The buffer cache of bio.c and the group-commit log of log.c as one transition system.

    Any number of processes run file-system operations and plain reads. Every use of a buffer is a
    session: bget, acquiresleep, the read of bread, changes, releasesleep, and the final drop of the
    reference are separate steps, so sessions interleave freely with each other and with the commit
    code, which goes through the same cache. Each bwrite is one step, and a crash may follow any
    step. Recovery runs through the same install and erase steps as a commit. */
module BufferLog {
  import opened LogFormat
  import opened Wrappers

  const DEV: nat := 1   // ROOTDEV, the device that carries the log

  datatype Buf = Buf(dev: nat, blockno: int, valid: bool, dirty: bool, refcnt: nat, data: Block, lock: Option<nat>)

  // Waiting: counted in refcnt, not yet owning the sleep-lock. Locked: owns it. Ready: bread returned.
  // Modified: data changed, not yet passed to log_write. Released: unlocked, still counted.
  datatype Phase = Waiting | Locked | Ready | Modified | Released
  datatype Role = Reader | Op(op: nat) | Logger
  datatype Session = Session(buf: nat, blockno: int, phase: Phase, role: Role)

  // Where commit() or recover_from_log() stands; `cur` is the session whose buffer is filled and
  // about to be written. Idle is the only state with log.committing == 0.
  datatype Pc = Idle | ReadHead | WriteLog | WriteHead | Install | ClearHead | Closing
  datatype Commit = Commit(pc: Pc, tail: nat, cur: Option<nat>)

  // ops maps each outstanding operation to the part of its reservation it has not used;
  // view is a history variable: the contents last passed to log_write, block by block.
  datatype Sys = Sys(
    disk: Disk, bufs: seq<Buf>, sessions: map<nat, Session>,
    lh: seq<int>, ops: map<nat, nat>, commit: Commit, recovering: bool,
    view: map<int, Block>)

  datatype Step =
    | BeginOp(op: nat)
    | EndOp(op: nat)
    | Bget(sid: nat, role: Role, blockno: int, buf: nat)
    | AcquireSleep(sid: nat)
    | Bread(sid: nat)
    | Modify(sid: nat, data: Block)
    | LogWrite(sid: nat)
    | ReleaseSleep(sid: nat)
    | Unref(sid: nat)
    | LoadHead(sid: nat)
    | Fill(to: nat, from: nat)
    | Bwrite
    | Advance
    | Crash

  // ---------- lookups ----------

  predicate HasKey(b: Buf, blockno: int) {
    b.dev == DEV && b.blockno == blockno
  }

  predicate Cached(s: Sys, blockno: int) {
    exists i :: 0 <= i < |s.bufs| && HasKey(s.bufs[i], blockno)
  }

  // The session exists, and so does its buffer.
  predicate Held(s: Sys, k: nat) {
    k in s.sessions && s.sessions[k].buf < |s.bufs|
  }

  function BufOf(s: Sys, k: nat): Buf
    requires Held(s, k)
  {
    s.bufs[s.sessions[k].buf]
  }

  // One session moves to a new phase and its buffer changes with it.
  function Touch(s: Sys, k: nat, b: Buf, phase: Phase): Sys
    requires Held(s, k)
  {
    s.(bufs := s.bufs[s.sessions[k].buf := b], sessions := s.sessions[k := s.sessions[k].(phase := phase)])
  }

  // ---------- begin_op and end_op ----------

  predicate CanBegin(s: Sys, op: nat) {
    op !in s.ops && s.commit.pc == Idle && |s.lh| + (|s.ops| + 1) * MAXOPBLOCKS <= LOGSIZE
  }

  function DoBegin(s: Sys, op: nat): Sys {
    s.(ops := s.ops[op := MAXOPBLOCKS])
  }

  // The caller has released every buffer it used.
  predicate CanEnd(s: Sys, op: nat) {
    op in s.ops && forall k :: k in s.sessions ==> s.sessions[k].role != Op(op)
  }

  // The last operation out sets log.committing and commits; commit() does nothing for an empty log.
  function DoEnd(s: Sys, op: nat): Sys {
    var ops := s.ops - {op};
    if |ops| > 0 then s.(ops := ops)
    else s.(ops := ops, commit := Commit(if |s.lh| > 0 then WriteLog else Closing, 0, None))
  }

  // ---------- bget, bread, brelse ----------

  // Take the cached buffer, or recycle an unreferenced clean one with its flags cleared.
  predicate CanBget(L: Layout, s: Sys, sid: nat, role: Role, blockno: int, i: nat) {
    && sid !in s.sessions && 0 <= blockno < L.size && i < |s.bufs|
    && (match role
        case Reader => L.Home(blockno) && !s.recovering
        case Op(op) => L.Home(blockno) && !s.recovering && op in s.ops
        case Logger => LoggerUses(L, s, blockno))
    && (if Cached(s, blockno) then HasKey(s.bufs[i], blockno) else s.bufs[i].refcnt == 0 && !s.bufs[i].dirty)
  }

  function BgetBuf(b: Buf, blockno: int): Buf {
    if HasKey(b, blockno) then b.(refcnt := b.refcnt + 1)
    else b.(dev := DEV, blockno := blockno, valid := false, dirty := false, refcnt := 1)
  }

  function DoBget(s: Sys, sid: nat, role: Role, blockno: int, i: nat): Sys
    requires i < |s.bufs|
  {
    s.(bufs := s.bufs[i := BgetBuf(s.bufs[i], blockno)],
       sessions := s.sessions[sid := Session(i, blockno, Waiting, role)])
  }

  predicate CanAcquire(s: Sys, k: nat) {
    Held(s, k) && s.sessions[k].phase == Waiting && BufOf(s, k).lock == None
  }

  function DoAcquire(s: Sys, k: nat): Sys
    requires CanAcquire(s, k)
  {
    Touch(s, k, BufOf(s, k).(lock := Some(k)), Locked)
  }

  predicate CanBread(s: Sys, k: nat) {
    Held(s, k) && s.sessions[k].phase == Locked && 0 <= BufOf(s, k).blockno < |s.disk|
  }

  // iderw reads the block only if the buffer is not valid.
  function DoBread(s: Sys, k: nat): Sys
    requires CanBread(s, k)
  {
    var b := BufOf(s, k);
    Touch(s, k, if b.valid then b else b.(data := s.disk[b.blockno], valid := true), Ready)
  }

  predicate CanModify(s: Sys, k: nat) {
    Held(s, k) && s.sessions[k].role.Op? && (s.sessions[k].phase == Ready || s.sessions[k].phase == Modified)
  }

  function DoModify(s: Sys, k: nat, data: Block): Sys
    requires CanModify(s, k)
  {
    Touch(s, k, BufOf(s, k).(data := data), Modified)
  }

  // brelse, first half; a client passes what it changed to log_write before this.
  predicate CanRelease(s: Sys, k: nat) {
    Held(s, k) && s.sessions[k].phase == Ready && s.commit.cur != Some(k)
  }

  function DoRelease(s: Sys, k: nat): Sys
    requires CanRelease(s, k)
  {
    Touch(s, k, BufOf(s, k).(lock := None), Released)
  }

  // brelse, second half.
  predicate CanUnref(s: Sys, k: nat) {
    Held(s, k) && s.sessions[k].phase == Released && BufOf(s, k).refcnt > 0
  }

  function DoUnref(s: Sys, k: nat): Sys
    requires CanUnref(s, k)
  {
    s.(bufs := s.bufs[s.sessions[k].buf := BufOf(s, k).(refcnt := BufOf(s, k).refcnt - 1)],
       sessions := s.sessions - {k})
  }

  // ---------- log_write ----------

  // The two panics; the size test comes before the search for an entry to absorb the write.
  predicate LogWritePanics(L: Layout, s: Sys) {
    |s.lh| >= LOGSIZE || |s.lh| >= L.nlog - 1 || |s.ops| < 1
  }

  // An operation keeps to MAXOPBLOCKS new blocks.
  predicate CanLogWrite(L: Layout, s: Sys, k: nat) {
    && CanModify(s, k) && !LogWritePanics(L, s) && s.sessions[k].role.op in s.ops
    && (s.sessions[k].blockno in s.lh || s.ops[s.sessions[k].role.op] > 0)
  }

  function DoLogWrite(s: Sys, k: nat): Sys
    requires CanModify(s, k) && s.sessions[k].role.op in s.ops
    requires s.sessions[k].blockno in s.lh || s.ops[s.sessions[k].role.op] > 0
  {
    var b := s.sessions[k].blockno;
    var op := s.sessions[k].role.op;
    var s' := Touch(s, k, BufOf(s, k).(dirty := true), Ready).(view := s.view[b := BufOf(s, k).data]);
    if b in s.lh then s' else s'.(lh := s.lh + [b], ops := s.ops[op := s.ops[op] - 1])
  }

  // ---------- commit and recover_from_log ----------

  predicate Writing(pc: Pc) {
    pc == WriteLog || pc == WriteHead || pc == Install || pc == ClearHead
  }

  // Inside the body of a copy loop.
  predicate Copying(s: Sys) {
    (s.commit.pc == WriteLog || s.commit.pc == Install) ==> s.commit.tail < |s.lh|
  }

  // The block that the current phase writes next.
  function Target(L: Layout, s: Sys): int
    requires Copying(s)
  {
    match s.commit.pc
    case WriteLog => L.LogBlock(s.commit.tail)
    case Install => s.lh[s.commit.tail]
    case _ => L.logstart
  }

  // The block that the current phase copies from.
  function Origin(L: Layout, s: Sys): int
    requires Copying(s)
  {
    match s.commit.pc
    case WriteLog => s.lh[s.commit.tail]
    case Install => L.LogBlock(s.commit.tail)
    case _ => L.logstart
  }

  predicate LoggerUses(L: Layout, s: Sys, b: int) {
    if s.commit.pc == ReadHead then b == L.logstart
    else Writing(s.commit.pc) && Copying(s) && (b == Target(L, s) || b == Origin(L, s))
  }

  // read_head
  predicate CanLoadHead(L: Layout, s: Sys, k: nat) {
    && s.commit.pc == ReadHead && Held(s, k) && s.sessions[k].phase == Ready
    && s.sessions[k].blockno == L.logstart
    && (HeaderCount(BufOf(s, k).data) < |BufOf(s, k).data.words| || HeaderCount(BufOf(s, k).data) == 0)
  }

  function DoLoadHead(L: Layout, s: Sys, k: nat): Sys
    requires CanLoadHead(L, s, k)
  {
    s.(lh := HeaderBlocks(BufOf(s, k).data), commit := Commit(Install, 0, None))
  }

  predicate LoggerReady(s: Sys, k: nat, blockno: int) {
    && Held(s, k) && s.sessions[k].phase == Ready && s.sessions[k].role == Logger
    && s.sessions[k].blockno == blockno
  }

  // The memmove of the copy loops, and the filling in of the header block.
  predicate CanFill(L: Layout, s: Sys, to: nat, from: nat) {
    && Writing(s.commit.pc) && Copying(s) && s.commit.cur == None
    && LoggerReady(s, to, Target(L, s)) && LoggerReady(s, from, Origin(L, s))
  }

  function Filled(s: Sys, before: Block, origin: Block): Block {
    if s.commit.pc == WriteHead || s.commit.pc == ClearHead then EncodeHeader(before, s.lh) else origin
  }

  function DoFill(s: Sys, to: nat, from: nat): Sys
    requires Held(s, to) && Held(s, from)
  {
    s.(bufs := s.bufs[s.sessions[to].buf :=
         BufOf(s, to).(data := Filled(s, BufOf(s, to).data, BufOf(s, from).data))],
       commit := s.commit.(cur := Some(to)))
  }

  predicate CanBwrite(s: Sys) {
    && Writing(s.commit.pc) && s.commit.cur.Some? && Held(s, s.commit.cur.value)
    && 0 <= BufOf(s, s.commit.cur.value).blockno < |s.disk|
  }

  function AfterBwrite(c: Commit): Commit {
    match c.pc
    case WriteHead => Commit(Install, 0, None)
    case ClearHead => Commit(Closing, 0, None)
    case _ => Commit(c.pc, c.tail + 1, None)
  }

  function DoBwrite(s: Sys): Sys
    requires CanBwrite(s)
  {
    var k := s.commit.cur.value;
    var b := BufOf(s, k);
    s.(disk := s.disk[b.blockno := b.data],
       bufs := s.bufs[s.sessions[k].buf := b.(dirty := false, valid := true)],
       commit := AfterBwrite(s.commit))
  }

  // Leaving a copy loop, or clearing log.committing after the last buffer is released.
  predicate CanAdvance(s: Sys) {
    && s.commit.cur == None
    && match s.commit.pc
       case WriteLog => s.commit.tail >= |s.lh|
       case Install => s.commit.tail >= |s.lh|
       case Closing => forall k :: k in s.sessions ==> s.sessions[k].role != Logger
       case _ => false
  }

  function DoAdvance(s: Sys): Sys {
    match s.commit.pc
    case WriteLog => s.(commit := Commit(WriteHead, 0, None))
    case Install => s.(lh := [], commit := Commit(ClearHead, 0, None))
    case _ => s.(commit := Commit(Idle, 0, None), recovering := false)
  }

  // ---------- crash ----------

  function BootBuf(b: Buf): Buf {
    b.(dev := 0, blockno := 0, valid := false, dirty := false, refcnt := 0, lock := None)
  }

  // The machine after power comes back: memory is gone, the disk is what it was.
  function Booted(L: Layout, d: Disk, bufs: seq<Buf>): Sys
    requires GoodDisk(L, d)
  {
    Sys(d, seq(|bufs|, i requires 0 <= i < |bufs| => BootBuf(bufs[i])), map[], [], map[],
        Commit(ReadHead, 0, None), true, Durable(L, d))
  }

  // ---------- the transition system ----------

  ghost predicate Enabled(L: Layout, s: Sys, step: Step) {
    match step
    case BeginOp(op) => CanBegin(s, op)
    case EndOp(op) => CanEnd(s, op)
    case Bget(sid, role, b, i) => CanBget(L, s, sid, role, b, i)
    case AcquireSleep(k) => CanAcquire(s, k)
    case Bread(k) => CanBread(s, k)
    case Modify(k, _) => CanModify(s, k)
    case LogWrite(k) => CanLogWrite(L, s, k)
    case ReleaseSleep(k) => CanRelease(s, k)
    case Unref(k) => CanUnref(s, k)
    case LoadHead(k) => CanLoadHead(L, s, k)
    case Fill(to, from) => CanFill(L, s, to, from)
    case Bwrite => CanBwrite(s)
    case Advance => CanAdvance(s)
    case Crash => GoodDisk(L, s.disk)
  }

  ghost function Apply(L: Layout, s: Sys, step: Step): Sys
    requires Enabled(L, s, step)
  {
    match step
    case BeginOp(op) => DoBegin(s, op)
    case EndOp(op) => DoEnd(s, op)
    case Bget(sid, role, b, i) => DoBget(s, sid, role, b, i)
    case AcquireSleep(k) => DoAcquire(s, k)
    case Bread(k) => DoBread(s, k)
    case Modify(k, data) => DoModify(s, k, data)
    case LogWrite(k) => DoLogWrite(s, k)
    case ReleaseSleep(k) => DoRelease(s, k)
    case Unref(k) => DoUnref(s, k)
    case LoadHead(k) => DoLoadHead(L, s, k)
    case Fill(to, from) => DoFill(s, to, from)
    case Bwrite => DoBwrite(s)
    case Advance => DoAdvance(s)
    case Crash => Booted(L, s.disk, s.bufs)
  }
}
