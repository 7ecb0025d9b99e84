/** The on-disk redo log of log.c: a header block followed by copies of the logged blocks.
    A block is a sequence of 32-bit words, because the header is an array of ints. */
module LogFormat {
  const MAXOPBLOCKS: nat := 10
  const LOGSIZE: nat := 30

  // A disk block, as the array of 32-bit words that the header code sees.
  datatype Block = Block(words: seq<int>)
  type Disk = seq<Block>

  /** The part of the superblock that log.c uses: `nlog` blocks from `logstart` are the log. */
  datatype Layout = Layout(size: nat, logstart: nat, nlog: nat) {
    ghost predicate Valid() {
      1 <= nlog && logstart + nlog <= size
    }

    predicate InLog(b: int) {
      logstart <= b < logstart + nlog
    }

    // A block that belongs to the file system proper.
    predicate Home(b: int) {
      0 <= b < size && !InLog(b)
    }

    // Where the copy of the i-th logged block lives.
    function LogBlock(i: nat): nat {
      logstart + 1 + i
    }

    // The number of entries at which log_write panics.
    function Capacity(): nat
      requires 1 <= nlog
    {
      if nlog - 1 < LOGSIZE then nlog - 1 else LOGSIZE
    }
  }

  ghost predicate DiskOk(L: Layout, d: Disk) {
    L.Valid() && |d| == L.size
  }

  // The copy loops run while i < n, so a negative count reads as an empty log.
  function HeaderCount(h: Block): nat {
    if |h.words| > 0 && h.words[0] > 0 then h.words[0] else 0
  }

  function HeaderBlocks(h: Block): seq<int>
    requires HeaderCount(h) < |h.words| || HeaderCount(h) == 0
  {
    if HeaderCount(h) == 0 then [] else h.words[1..1 + HeaderCount(h)]
  }

  // write_head overwrites the count and the first entries and keeps the rest of the block.
  function EncodeHeader(h: Block, blocks: seq<int>): Block {
    Block([|blocks|] + blocks + if |h.words| > 1 + |blocks| then h.words[1 + |blocks|..] else [])
  }

  lemma HeaderRoundTrip(h: Block, blocks: seq<int>)
    ensures HeaderCount(EncodeHeader(h, blocks)) == |blocks|
    ensures |EncodeHeader(h, blocks).words| > |blocks|
    ensures HeaderBlocks(EncodeHeader(h, blocks)) == blocks
  {
    var e := EncodeHeader(h, blocks).words;
    assert e[1..1 + |blocks|] == blocks;
  }

  ghost predicate Distinct(es: seq<int>) {
    forall i, j :: 0 <= i < j < |es| ==> es[i] != es[j]
  }

  ghost predicate Entries(L: Layout, es: seq<int>) {
    L.Valid() && |es| <= L.Capacity() && forall i :: 0 <= i < |es| ==> L.Home(es[i])
  }

  // A header that a commit or an erase can have left behind.
  ghost predicate GoodHeader(L: Layout, h: Block) {
    L.Valid() && (HeaderCount(h) < |h.words| || HeaderCount(h) == 0) && Entries(L, HeaderBlocks(h)) && Distinct(HeaderBlocks(h))
  }

  ghost predicate GoodDisk(L: Layout, d: Disk) {
    DiskOk(L, d) && GoodHeader(L, d[L.logstart])
  }

  /** The disk after install_trans has copied the first k log blocks home. */
  function Installed(L: Layout, d: Disk, es: seq<int>, k: nat): (r: Disk)
    requires DiskOk(L, d) && Entries(L, es) && k <= |es|
    ensures |r| == |d|
  {
    if k == 0 then d else Installed(L, d, es, k - 1)[es[k - 1] := d[L.LogBlock(k - 1)]]
  }

  /** The file system that a completed recovery of disk d leaves: every home block, log applied. */
  function Durable(L: Layout, d: Disk): (m: map<int, Block>)
    requires GoodDisk(L, d)
  {
    var es := HeaderBlocks(d[L.logstart]);
    var r := Installed(L, d, es, |es|);
    map b: int | 0 <= b < L.size && L.Home(b) :: r[b]
  }

  function HomeOf(L: Layout, d: Disk): (m: map<int, Block>)
    requires DiskOk(L, d)
  {
    map b: int | 0 <= b < L.size && L.Home(b) :: d[b]
  }

  // A block is either untouched by the install or holds its log copy.
  lemma {:induction false} InstalledAt(L: Layout, d: Disk, es: seq<int>, k: nat, b: int)
    requires DiskOk(L, d) && Entries(L, es) && k <= |es| && 0 <= b < L.size && Distinct(es)
    ensures (forall i :: 0 <= i < k ==> es[i] != b) ==> Installed(L, d, es, k)[b] == d[b]
    ensures forall i :: 0 <= i < k && es[i] == b ==> Installed(L, d, es, k)[b] == d[L.LogBlock(i)]
  {
    if k > 0 {
      InstalledAt(L, d, es, k - 1, b);
    }
  }

  // With an empty log the home blocks are the file system.
  lemma DurableEmpty(L: Layout, d: Disk)
    requires GoodDisk(L, d) && HeaderCount(d[L.logstart]) == 0
    ensures Durable(L, d) == HomeOf(L, d)
  {
  }

  /** What recovery computes depends only on the header, the log copies it names, and the home
      blocks it does not name: this is why a crash in the middle of an install is harmless. */
  lemma DurableDetermined(L: Layout, d: Disk, d': Disk)
    requires GoodDisk(L, d) && GoodDisk(L, d')
    requires HeaderBlocks(d[L.logstart]) == HeaderBlocks(d'[L.logstart])
    requires forall i :: 0 <= i < HeaderCount(d[L.logstart]) ==> d[L.LogBlock(i)] == d'[L.LogBlock(i)]
    requires forall b: int :: L.Home(b) && b !in HeaderBlocks(d[L.logstart]) ==> d[b] == d'[b]
    ensures Durable(L, d) == Durable(L, d')
  {
    var es := HeaderBlocks(d[L.logstart]);
    forall b: int | 0 <= b < L.size && L.Home(b)
      ensures Installed(L, d, es, |es|)[b] == Installed(L, d', es, |es|)[b]
    {
      InstalledAt(L, d, es, |es|, b);
      InstalledAt(L, d', es, |es|, b);
      if b in es {
        var i :| 0 <= i < |es| && es[i] == b;
        assert d[L.LogBlock(i)] == d'[L.LogBlock(i)];
      }
    }
  }

  /** Writing the header is the commit point: if the log copies hold view's contents of the listed
      blocks and every other home block already agrees with view, the disk now recovers to view. */
  lemma DurableCommitted(L: Layout, d: Disk, view: map<int, Block>)
    requires GoodDisk(L, d)
    requires view.Keys == set b: int | 0 <= b < L.size && L.Home(b)
    requires forall i :: 0 <= i < HeaderCount(d[L.logstart]) ==> d[L.LogBlock(i)] == view[HeaderBlocks(d[L.logstart])[i]]
    requires forall b: int :: L.Home(b) && b !in HeaderBlocks(d[L.logstart]) ==> d[b] == view[b]
    ensures Durable(L, d) == view
  {
    var es := HeaderBlocks(d[L.logstart]);
    forall b: int | 0 <= b < L.size && L.Home(b)
      ensures Installed(L, d, es, |es|)[b] == view[b]
    {
      InstalledAt(L, d, es, |es|, b);
      if b in es {
        var i :| 0 <= i < |es| && es[i] == b;
        assert d[L.LogBlock(i)] == view[es[i]];
      }
    }
  }

  // write_head at the commit point: listing the blocks whose copies are in place commits them.
  lemma CommitDisk(L: Layout, d: Disk, lh: seq<int>, view: map<int, Block>)
    requires GoodDisk(L, d) && Entries(L, lh) && Distinct(lh)
    requires view.Keys == set b: int | 0 <= b < L.size && L.Home(b)
    requires forall i :: 0 <= i < |lh| ==> d[L.LogBlock(i)] == view[lh[i]]
    requires forall b: int :: L.Home(b) && b !in lh ==> d[b] == view[b]
    ensures var d' := d[L.logstart := EncodeHeader(d[L.logstart], lh)];
      GoodDisk(L, d') && HeaderBlocks(d'[L.logstart]) == lh && Durable(L, d') == view
  {
    var d' := d[L.logstart := EncodeHeader(d[L.logstart], lh)];
    HeaderRoundTrip(d[L.logstart], lh);
    DurableCommitted(L, d', view);
  }

  // Writing any block that the header names leaves the recovered state alone.
  lemma InstallDisk(L: Layout, d: Disk, b: int, data: Block)
    requires GoodDisk(L, d) && L.Home(b) && b in HeaderBlocks(d[L.logstart])
    ensures GoodDisk(L, d[b := data]) && Durable(L, d[b := data]) == Durable(L, d)
  {
    DurableDetermined(L, d, d[b := data]);
  }
}
