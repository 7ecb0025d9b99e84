/** Which inode slot owns which disk block, as invariants of the file-system state. */
module BlockOwnership {
  import opened InodeFormat

  // used: the bitmap; datastart: the first block that is not boot block, superblock, log, inode or bitmap block.
  datatype Fs = Fs(used: seq<bool>, blocks: seq<Data>, inodes: seq<Dinode>, datastart: nat)

  // Slot k of inode i: 0..11 direct, 12 the indirect pointer, 13.. the entries of the indirect block.
  datatype Slot = Slot(inode: nat, k: nat)

  predicate Shape(fs: Fs) {
    && |fs.used| == |fs.blocks| && 0 < fs.datastart <= |fs.blocks|
    && (forall b :: 0 <= b < |fs.blocks| ==> |fs.blocks[b]| == BSIZE)
    && (forall i :: 0 <= i < |fs.inodes| ==> |fs.inodes[i].addrs| == NDIRECT + 1)
  }

  predicate Good(fs: Fs, s: Slot) {
    s.inode < |fs.inodes| && s.k < SLOTS
  }

  // The slot of the bn-th block of a file.
  function FileSlot(i: nat, bn: nat): Slot {
    Slot(i, if bn < NDIRECT then bn else bn + 1)
  }

  /** The block number stored in a slot, 0 if none. */
  function Addr(fs: Fs, s: Slot): int {
    if s.inode >= |fs.inodes| || |fs.inodes[s.inode].addrs| != NDIRECT + 1 then 0
    else if s.k <= NDIRECT then fs.inodes[s.inode].addrs[s.k]
    else
      var a := fs.inodes[s.inode].addrs[NDIRECT];
      if 0 < a < |fs.blocks| then Entry(fs.blocks[a], s.k - NDIRECT - 1) else 0
  }

  type Owners = map<int, Slot>

  ghost predicate SlotOk(fs: Fs, own: Owners, s: Slot) {
    Addr(fs, s) != 0 ==> Addr(fs, s) in own && own[Addr(fs, s)] == s
  }

  ghost predicate OwnerOk(fs: Fs, own: Owners, b: int)
    requires b in own
  {
    0 <= b < |fs.used| && fs.datastart <= b && fs.used[b] && Good(fs, own[b]) && Addr(fs, own[b]) == b
  }

  /** Blocks and slots correspond one to one; slots in `dead` are about to disappear. */
  ghost predicate Owned(fs: Fs, own: Owners, dead: set<Slot>) {
    && Shape(fs)
    && (forall s: Slot :: Good(fs, s) && s !in dead ==> SlotOk(fs, own, s))
    && (forall b :: b in own ==> OwnerOk(fs, own, b) && own[b] !in dead)
    && (forall b :: 0 <= b < |fs.used| && fs.used[b] && fs.datastart <= b ==> b in own)
    && (forall b :: 0 <= b < fs.datastart ==> fs.used[b])
  }

  // ---------- changing one slot ----------

  function SetSlot(fs: Fs, s: Slot, a: nat): Fs
    requires Shape(fs) && Good(fs, s)
    requires s.k > NDIRECT ==> 0 < fs.inodes[s.inode].addrs[NDIRECT] < |fs.blocks|
  {
    var ino := fs.inodes[s.inode];
    if s.k <= NDIRECT then
      fs.(inodes := fs.inodes[s.inode := ino.(addrs := ino.addrs[s.k := a])])
    else
      var p := ino.addrs[NDIRECT];
      fs.(blocks := fs.blocks[p := WithEntry(fs.blocks[p], s.k - NDIRECT - 1, a)])
  }

  // balloc: mark b and zero it.
  function Take(fs: Fs, b: nat): Fs
    requires Shape(fs) && b < |fs.used|
  {
    fs.(used := fs.used[b := true], blocks := fs.blocks[b := Zero()])
  }

  lemma ZeroEntries(j: nat)
    ensures Entry(Zero(), j) == 0
  {
  }

  // The contents of a block that is not in use do not matter.
  lemma OverwriteFree(fs: Fs, own: Owners, b: nat, data: Data)
    requires Owned(fs, own, {}) && b < |fs.used| && !fs.used[b] && |data| == BSIZE
    ensures Owned(fs.(blocks := fs.blocks[b := data]), own, {})
    ensures forall s: Slot :: Good(fs, s) ==> Addr(fs.(blocks := fs.blocks[b := data]), s) == Addr(fs, s)
  {
    var fs' := fs.(blocks := fs.blocks[b := data]);
    forall s: Slot | Good(fs, s) ensures Addr(fs', s) == Addr(fs, s) {
      var p := Slot(s.inode, NDIRECT);
      assert SlotOk(fs, own, p);
      assert Addr(fs, p) != 0 ==> OwnerOk(fs, own, Addr(fs, p));
    }
    forall s: Slot | Good(fs', s) ensures SlotOk(fs', own, s) {
      assert SlotOk(fs, own, s);
    }
    forall c | c in own ensures OwnerOk(fs', own, c) {
      assert OwnerOk(fs, own, c);
    }
  }

  lemma SetSlotAddr(fs: Fs, own: Owners, s: Slot, a: nat, t: Slot)
    requires Owned(fs, own, {}) && Good(fs, s) && Good(fs, t) && a < |fs.blocks| && Addr(fs, s) == 0
    requires s.k > NDIRECT ==> 0 < fs.inodes[s.inode].addrs[NDIRECT] < |fs.blocks|
    requires s.k == NDIRECT ==> fs.blocks[a] == Zero()
    ensures Addr(SetSlot(fs, s, a), t) == if t == s then a else Addr(fs, t)
  {
    if s.k > NDIRECT {
      var p, q := Slot(s.inode, NDIRECT), Slot(t.inode, NDIRECT);
      assert SlotOk(fs, own, p) && SlotOk(fs, own, q);
      EntryRoundTrip(fs.blocks[Addr(fs, p)], s.k - NDIRECT - 1, a, if t.k > NDIRECT then t.k - NDIRECT - 1 else 0);
    } else if s.k == NDIRECT && t.inode == s.inode && t.k > NDIRECT {
      ZeroEntries(t.k - NDIRECT - 1);
    }
  }

  // The state after balloc has handed block b to the empty slot s.
  function Allocate(fs: Fs, s: Slot, b: nat): Fs
    requires Shape(fs) && Good(fs, s) && b < |fs.used|
    requires s.k > NDIRECT ==> 0 < fs.inodes[s.inode].addrs[NDIRECT] < |fs.blocks|
  {
    SetSlot(Take(fs, b), s, b)
  }

  /** Allocation keeps the correspondence, changes one slot, and touches no other owned block
      except the indirect block it writes the new number into. */
  lemma AllocateOwned(fs: Fs, own: Owners, s: Slot, b: nat)
    requires Owned(fs, own, {}) && Good(fs, s) && b < |fs.used| && !fs.used[b] && Addr(fs, s) == 0
    requires s.k > NDIRECT ==> 0 < fs.inodes[s.inode].addrs[NDIRECT] < |fs.blocks|
    ensures Owned(Allocate(fs, s, b), own[b := s], {})
    ensures forall t: Slot :: Good(fs, t) ==> Addr(Allocate(fs, s, b), t) == if t == s then b else Addr(fs, t)
    ensures KeepsData(fs, Allocate(fs, s, b)) && Allocate(fs, s, b).blocks[b] == Zero()
  {
    AllocateKeeps(fs, own, s, b);
    var fs0 := fs.(blocks := fs.blocks[b := Zero()]);
    var fs2 := Allocate(fs, s, b);
    OverwriteFree(fs, own, b, Zero());
    assert fs2 == SetSlot(fs0, s, b).(used := fs.used[b := true]);
    forall t: Slot | Good(fs, t) ensures Addr(fs2, t) == if t == s then b else Addr(fs, t) {
      SetSlotAddr(fs0, own, s, b, t);
      AddrIgnoresUsed(SetSlot(fs0, s, b), fs.used[b := true], t);
    }
    assert forall c :: c in own ==> OwnerOk(fs, own, c);
    AllocateOwners(fs, own, s, b, fs2);
  }

  // The blocks that hold file data, as opposed to block numbers, are as they were.
  ghost predicate KeepsData(fs: Fs, fs': Fs) {
    forall t: Slot :: Good(fs, t) && t.k != NDIRECT && 0 < Addr(fs, t) < |fs.blocks| ==>
      Addr(fs, t) < |fs'.blocks| && fs'.blocks[Addr(fs, t)] == fs.blocks[Addr(fs, t)]
  }

  lemma AllocateKeeps(fs: Fs, own: Owners, s: Slot, b: nat)
    requires Owned(fs, own, {}) && Good(fs, s) && b < |fs.used| && !fs.used[b] && Addr(fs, s) == 0
    requires s.k > NDIRECT ==> 0 < fs.inodes[s.inode].addrs[NDIRECT] < |fs.blocks|
    ensures KeepsData(fs, Allocate(fs, s, b)) && Allocate(fs, s, b).blocks[b] == Zero()
  {
    var p := Slot(s.inode, NDIRECT);
    assert SlotOk(fs, own, p);
    assert s.k > NDIRECT ==> OwnerOk(fs, own, Addr(fs, p));
    forall t: Slot | Good(fs, t) && t.k != NDIRECT && 0 < Addr(fs, t) < |fs.blocks|
      ensures Allocate(fs, s, b).blocks[Addr(fs, t)] == fs.blocks[Addr(fs, t)]
    {
      assert SlotOk(fs, own, t) && OwnerOk(fs, own, Addr(fs, t));
    }
  }

  lemma AddrIgnoresUsed(fs: Fs, used: seq<bool>, t: Slot)
    ensures Addr(fs.(used := used), t) == Addr(fs, t)
  {
  }

  lemma AllocateOwners(fs: Fs, own: Owners, s: Slot, b: nat, fs': Fs)
    requires Owned(fs, own, {}) && Good(fs, s) && b < |fs.used| && !fs.used[b] && Addr(fs, s) == 0 && b !in own
    requires Shape(fs') && fs'.used == fs.used[b := true] && |fs'.inodes| == |fs.inodes| && fs'.datastart == fs.datastart
    requires forall t: Slot :: Good(fs, t) ==> Addr(fs', t) == if t == s then b else Addr(fs, t)
    ensures Owned(fs', own[b := s], {})
  {
    var own' := own[b := s];
    forall t: Slot | Good(fs', t) ensures SlotOk(fs', own', t) {
      assert SlotOk(fs, own, t);
    }
    forall c | c in own' ensures OwnerOk(fs', own', c) {
      if c != b { assert OwnerOk(fs, own, c); }
    }
  }

  // ---------- file contents ----------

  function ByteAt(fs: Fs, i: nat, o: nat): int {
    var a := Addr(fs, FileSlot(i, o / BSIZE));
    if 0 < a < |fs.blocks| && |fs.blocks[a]| == BSIZE then fs.blocks[a][o % BSIZE] else 0
  }

  /** Exactly the blocks of the first e bytes are allocated: no holes, nothing past the end. */
  ghost predicate Extent(fs: Fs, i: nat, e: nat) {
    && (forall bn: nat :: bn < MAXFILE ==> (Addr(fs, FileSlot(i, bn)) != 0 <==> bn * BSIZE < e))
    && (Addr(fs, Slot(i, NDIRECT)) != 0 <==> NDIRECT * BSIZE < e)
  }

  ghost predicate HoleFree(fs: Fs) {
    forall i: nat :: i < |fs.inodes| ==> fs.inodes[i].size <= MAXFILE * BSIZE && Extent(fs, i, fs.inodes[i].size)
  }

  /** The file as the byte sequence that readi and writei present. */
  function Content(fs: Fs, i: nat): (c: seq<int>)
    requires i < |fs.inodes|
  {
    seq(fs.inodes[i].size, o requires 0 <= o < fs.inodes[i].size => ByteAt(fs, i, o))
  }

  // Inode j is untouched: same size, same block numbers, same data.
  ghost predicate SameFile(fs: Fs, fs': Fs, j: nat) {
    && j < |fs.inodes| && j < |fs'.inodes| && |fs'.blocks| == |fs.blocks|
    && fs'.inodes[j].size == fs.inodes[j].size
    && (forall k :: 0 <= k < SLOTS ==> Addr(fs', Slot(j, k)) == Addr(fs, Slot(j, k)))
    && (forall k :: 0 <= k < SLOTS && k != NDIRECT && 0 < Addr(fs, Slot(j, k)) < |fs.blocks| ==>
          fs'.blocks[Addr(fs, Slot(j, k))] == fs.blocks[Addr(fs, Slot(j, k))])
  }

  lemma SameFileContent(fs: Fs, fs': Fs, j: nat)
    requires SameFile(fs, fs', j) && fs.inodes[j].size <= MAXFILE * BSIZE
    ensures Content(fs', j) == Content(fs, j)
    ensures forall e: nat :: Extent(fs, j, e) ==> Extent(fs', j, e)
  {
    forall o: nat | o < fs.inodes[j].size ensures ByteAt(fs', j, o) == ByteAt(fs, j, o) {
      assert o / BSIZE < MAXFILE;
      assert FileSlot(j, o / BSIZE) == Slot(j, FileSlot(j, o / BSIZE).k);
    }
    forall bn: nat | bn < MAXFILE ensures Addr(fs', FileSlot(j, bn)) == Addr(fs, FileSlot(j, bn)) {
      assert FileSlot(j, bn) == Slot(j, FileSlot(j, bn).k);
    }
  }

  // Overwriting the data block in slot s moves nothing and changes no other data block.
  lemma Overwrite(fs: Fs, own: Owners, s: Slot, data: Data)
    requires Owned(fs, own, {}) && Good(fs, s) && s.k != NDIRECT && Addr(fs, s) != 0 && |data| == BSIZE
    ensures 0 < Addr(fs, s) < |fs.blocks|
    ensures var fs' := fs.(blocks := fs.blocks[Addr(fs, s) := data]);
      && Owned(fs', own, {})
      && (forall t: Slot :: Good(fs, t) ==> Addr(fs', t) == Addr(fs, t))
      && (forall t: Slot :: Good(fs, t) && t != s && 0 < Addr(fs, t) < |fs.blocks| ==>
            fs'.blocks[Addr(fs, t)] == fs.blocks[Addr(fs, t)])
  {
    assert SlotOk(fs, own, s) && OwnerOk(fs, own, Addr(fs, s));
    var fs' := fs.(blocks := fs.blocks[Addr(fs, s) := data]);
    forall t: Slot | Good(fs, t) ensures Addr(fs', t) == Addr(fs, t) {
      assert SlotOk(fs, own, Slot(t.inode, NDIRECT));
    }
    forall t: Slot | Good(fs', t) ensures SlotOk(fs', own, t) {
      assert SlotOk(fs, own, t);
    }
    forall c | c in own ensures OwnerOk(fs', own, c) {
      assert OwnerOk(fs, own, c);
    }
  }

  // ---------- giving blocks back ----------

  /** bfree of an owned block, with its slot cleared or about to disappear. */
  lemma FreeOwned(fs: Fs, own: Owners, dead: set<Slot>, s: Slot, fs': Fs)
    requires Owned(fs, own, dead) && Good(fs, s) && s !in dead && Addr(fs, s) != 0
    requires Shape(fs') && |fs'.inodes| == |fs.inodes| && fs'.datastart == fs.datastart
    requires 0 <= Addr(fs, s) < |fs.used| && fs'.used == fs.used[Addr(fs, s) := false]
    requires forall t: Slot :: Good(fs, t) && t != s && t !in dead ==> Addr(fs', t) == Addr(fs, t)
    ensures Owned(fs', own - {Addr(fs, s)}, if Addr(fs', s) == 0 then dead else dead + {s})
  {
    var a := Addr(fs, s);
    var own', dead' := own - {a}, if Addr(fs', s) == 0 then dead else dead + {s};
    assert SlotOk(fs, own, s) && OwnerOk(fs, own, a);
    forall t: Slot | Good(fs', t) && t !in dead' ensures SlotOk(fs', own', t) {
      assert SlotOk(fs, own, t);
    }
    forall c | c in own' ensures OwnerOk(fs', own', c) && own'[c] !in dead' {
      assert OwnerOk(fs, own, c);
    }
  }

  // The owners that are left when slot s gives its block back.
  ghost function Without(own: Owners, s: Slot): Owners {
    map b | b in own && own[b] != s :: own[b]
  }

  // The owners that are left when slots lo..hi of inode i give their blocks back.
  ghost function WithoutRange(own: Owners, i: nat, lo: nat, hi: nat): Owners {
    map b | b in own && !(own[b].inode == i && lo <= own[b].k < hi) :: own[b]
  }

  // Truncation, seen from outside: exactly the blocks of inode i have become free.
  lemma FreedExactly(fs: Fs, own: Owners, fs': Fs, i: nat, b: nat)
    requires Owned(fs, own, {}) && Owned(fs', WithoutRange(own, i, 0, SLOTS), {}) && i < |fs.inodes|
    requires |fs'.used| == |fs.used| && fs'.datastart == fs.datastart && 0 < b < |fs.used|
    ensures fs'.used[b] <==> fs.used[b] && forall k :: 0 <= k < SLOTS ==> Addr(fs, Slot(i, k)) != b
  {
    var own' := WithoutRange(own, i, 0, SLOTS);
    assert b in own ==> OwnerOk(fs, own, b);
    assert b in own' ==> OwnerOk(fs', own', b);
    forall k | 0 <= k < SLOTS ensures Addr(fs, Slot(i, k)) == b <==> b in own && own[b] == Slot(i, k) {
      assert SlotOk(fs, own, Slot(i, k));
    }
  }

  lemma WithoutBlock(fs: Fs, own: Owners, dead: set<Slot>, s: Slot)
    requires Owned(fs, own, dead) && Good(fs, s) && s !in dead
    ensures Without(own, s) == if Addr(fs, s) == 0 then own else own - {Addr(fs, s)}
    ensures Addr(fs, s) == 0 ==> Owned(fs, own, dead + {s})
  {
    assert SlotOk(fs, own, s);
    forall b | b in own ensures own[b] == s <==> b == Addr(fs, s) {
      assert OwnerOk(fs, own, b);
    }
  }

  /** Once every slot of the dead set reads 0, nothing is dead any more. */
  lemma NoneDead(fs: Fs, own: Owners, dead: set<Slot>)
    requires Owned(fs, own, dead) && forall s :: s in dead ==> Addr(fs, s) == 0
    ensures Owned(fs, own, {})
  {
    forall s: Slot | Good(fs, s) ensures SlotOk(fs, own, s) { }
  }

  // ---------- the correspondence without the witness ----------

  /** Each block outside the metadata is free, or is stored in exactly one slot. */
  lemma FreeOrOwnedOnce(fs: Fs, own: Owners, b: nat)
    requires Owned(fs, own, {}) && fs.datastart <= b < |fs.used|
    ensures fs.used[b] <==> exists s: Slot :: Good(fs, s) && Addr(fs, s) == b
    ensures forall s: Slot, t: Slot :: Good(fs, s) && Good(fs, t) && Addr(fs, s) == b && Addr(fs, t) == b ==> s == t
  {
    if fs.used[b] {
      assert OwnerOk(fs, own, b);
      assert Good(fs, own[b]) && Addr(fs, own[b]) == b;
    }
    forall s: Slot | Good(fs, s) && Addr(fs, s) == b ensures b in own && own[b] == s && fs.used[b] {
      assert SlotOk(fs, own, s);
      assert OwnerOk(fs, own, b);
    }
  }
}
