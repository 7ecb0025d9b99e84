/** fs.c in its own form: block allocation, the block map of an inode, and file reads and writes. */
module FileSystem {
  import opened InodeFormat
  import opened BlockOwnership

  const UINT: nat := 0x1_0000_0000

  // One call of bmap: the block is there afterwards, and nothing that was there has moved.
  ghost predicate Mapped(fs: Fs, fs': Fs, i: nat, bn: nat) {
    var s, p := FileSlot(i, bn), Slot(i, NDIRECT);
    && SameSizes(fs, fs', i) && KeepsData(fs, fs')
    && (forall t: Slot :: Good(fs, t) && (Addr(fs, t) != 0 || (t != s && (t != p || bn < NDIRECT))) ==>
          Addr(fs', t) == Addr(fs, t))
    && Addr(fs', s) != 0 && (bn >= NDIRECT ==> Addr(fs', p) != 0)
    && (Addr(fs, s) == 0 ==> 0 < Addr(fs', s) < |fs'.blocks| && fs'.blocks[Addr(fs', s)] == Zero())
  }

  ghost function FreeBlocks(used: seq<bool>): set<nat> {
    set c: nat | c < |used| && !used[c]
  }

  // How many blocks bmap has to allocate: the block itself, and perhaps the indirect block.
  function Needed(fs: Fs, i: nat, bn: nat): nat {
    if Addr(fs, FileSlot(i, bn)) != 0 then 0
    else if bn < NDIRECT || Addr(fs, Slot(i, NDIRECT)) != 0 then 1 else 2
  }

  lemma FreeAfterTake(used: seq<bool>, b: nat)
    requires b < |used| && !used[b]
    ensures |FreeBlocks(used[b := true])| == |FreeBlocks(used)| - 1
  {
    assert b in FreeBlocks(used) && FreeBlocks(used[b := true]) == FreeBlocks(used) - {b};
  }

  lemma FreeNone(used: seq<bool>)
    requires forall c :: 0 <= c < |used| ==> used[c]
    ensures |FreeBlocks(used)| == 0
  {
    assert FreeBlocks(used) == {};
  }

  // Only block numbers of inode i may differ.
  ghost predicate SameSizes(fs: Fs, fs': Fs, i: nat) {
    && |fs'.blocks| == |fs.blocks| && fs'.datastart == fs.datastart && |fs'.inodes| == |fs.inodes| && i < |fs.inodes|
    && (forall j :: 0 <= j < |fs.inodes| && j != i ==> fs'.inodes[j] == fs.inodes[j])
    && fs'.inodes[i] == fs.inodes[i].(addrs := fs'.inodes[i].addrs)
  }

  // Slot s, empty before, now holds the zeroed block b.
  ghost predicate Filled(fs: Fs, fs': Fs, s: Slot, b: nat) {
    && SameSizes(fs, fs', s.inode) && KeepsData(fs, fs') && Good(fs, s) && Addr(fs, s) == 0
    && 0 < b < |fs'.blocks| && fs'.blocks[b] == Zero()
    && forall t: Slot :: Good(fs, t) ==> Addr(fs', t) == if t == s then b else Addr(fs, t)
  }

  lemma MappedAlready(fs: Fs, own: Owners, i: nat, bn: nat)
    requires Owned(fs, own, {}) && i < |fs.inodes| && bn < MAXFILE && Addr(fs, FileSlot(i, bn)) != 0
    ensures Mapped(fs, fs, i, bn)
  {
  }

  lemma MappedByFill(fs: Fs, fs': Fs, i: nat, bn: nat, b: nat)
    requires bn < MAXFILE && Filled(fs, fs', FileSlot(i, bn), b) && (bn >= NDIRECT ==> Addr(fs, Slot(i, NDIRECT)) != 0)
    ensures Mapped(fs, fs', i, bn)
  {
  }

  // The indirect block is allocated first, then the data block.
  lemma MappedByTwo(fs: Fs, fs1: Fs, fs2: Fs, i: nat, bn: nat, a: nat, b: nat)
    requires NDIRECT <= bn < MAXFILE && Filled(fs, fs1, Slot(i, NDIRECT), a) && Filled(fs1, fs2, FileSlot(i, bn), b)
    ensures Mapped(fs, fs2, i, bn)
  {
    forall t: Slot | Good(fs, t) && t.k != NDIRECT && 0 < Addr(fs, t) < |fs.blocks|
      ensures fs2.blocks[Addr(fs, t)] == fs.blocks[Addr(fs, t)]
    {
      assert Addr(fs1, t) == Addr(fs, t);
    }
  }

  // Other files do not notice a bmap, and neither does the part of this file that was there.
  lemma MappedFrame(fs: Fs, fs': Fs, i: nat, bn: nat, j: nat)
    requires Mapped(fs, fs', i, bn) && j < |fs.inodes| && j != i
    ensures SameFile(fs, fs', j)
  {
    forall k | 0 <= k < SLOTS ensures Addr(fs', Slot(j, k)) == Addr(fs, Slot(j, k)) {
      assert Good(fs, Slot(j, k));
    }
  }

  function Max(a: nat, b: nat): nat { if a < b then b else a }

  // Growing a file by part of one block: the allocated blocks stay those of a prefix.
  lemma ExtentMapped(fs: Fs, fs': Fs, i: nat, e: nat, o: nat, m: nat)
    requires Extent(fs, i, e) && Mapped(fs, fs', i, o / BSIZE)
    requires o <= e && 0 < m && o % BSIZE + m <= BSIZE && o + m <= MAXFILE * BSIZE
    ensures Extent(fs', i, Max(e, o + m))
  {
    var bn := o / BSIZE;
    forall bn': nat | bn' < MAXFILE ensures Addr(fs', FileSlot(i, bn')) != 0 <==> bn' * BSIZE < Max(e, o + m) {
      if bn' != bn { assert Addr(fs', FileSlot(i, bn')) == Addr(fs, FileSlot(i, bn')); }
    }
    if bn < NDIRECT { assert Addr(fs', Slot(i, NDIRECT)) == Addr(fs, Slot(i, NDIRECT)); }
  }

  // The bytes of a file that existed before are still there after a bmap.
  lemma BytesMapped(fs: Fs, fs': Fs, own: Owners, i: nat, e: nat, bn: nat, x: nat)
    requires Owned(fs, own, {}) && Shape(fs') && Extent(fs, i, e) && Mapped(fs, fs', i, bn)
    requires x < e <= MAXFILE * BSIZE
    ensures ByteAt(fs', i, x) == ByteAt(fs, i, x)
  {
    var s := FileSlot(i, x / BSIZE);
    assert x / BSIZE < MAXFILE && Addr(fs, s) != 0;
    assert SlotOk(fs, own, s) && OwnerOk(fs, own, Addr(fs, s));
  }

  // One block with `chunk` put at offset o.
  function Patched(b: Data, o: nat, chunk: Data): Data
    requires o + |chunk| <= |b|
  {
    b[..o] + chunk + b[o + |chunk|..]
  }

  /** c with the bytes from off on replaced by src, extended if src reaches past the end. */
  function Splice(c: seq<int>, off: nat, src: seq<int>): seq<int>
    requires off <= |c|
  {
    c[..off] + src + if off + |src| < |c| then c[off + |src|..] else []
  }

  // One turn of the loop in writei: chunk is in place at offset o, nothing else has changed, and the
  // file has grown only if the chunk reaches past e. Inside e no block number changes.
  ghost predicate Written(fs: Fs, fs': Fs, i: nat, e: nat, o: nat, chunk: Data) {
    && SameSizes(fs, fs', i) && Extent(fs', i, Max(e, o + |chunk|))
    && (forall j: nat :: j < |fs.inodes| && j != i ==> SameFile(fs, fs', j))
    && (forall x: nat :: x < Max(e, o + |chunk|) ==>
          ByteAt(fs', i, x) == if o <= x < o + |chunk| then chunk[x - o] else ByteAt(fs, i, x))
    && (o + |chunk| <= e ==> fs'.inodes == fs.inodes)
  }

  lemma WrittenHolds(fs: Fs, own: Owners, fs1: Fs, own1: Owners, i: nat, e: nat, o: nat, chunk: Data)
    requires Owned(fs, own, {}) && Owned(fs1, own1, {}) && Extent(fs, i, e) && Mapped(fs, fs1, i, o / BSIZE)
    requires Addr(fs, FileSlot(i, o / BSIZE)) != 0 ==> fs1 == fs
    requires e <= MAXFILE * BSIZE && o <= e && 0 < |chunk| && o % BSIZE + |chunk| <= BSIZE && o + |chunk| <= MAXFILE * BSIZE
    ensures var a := Addr(fs1, FileSlot(i, o / BSIZE));
      && 0 < a < |fs1.blocks|
      && var fs2 := fs1.(blocks := fs1.blocks[a := Patched(fs1.blocks[a], o % BSIZE, chunk)]);
         Owned(fs2, own1, {}) && Written(fs, fs2, i, e, o, chunk)
  {
    var s := FileSlot(i, o / BSIZE);
    var a := Addr(fs1, s);
    assert SlotOk(fs1, own1, s) && OwnerOk(fs1, own1, a);
    var data := Patched(fs1.blocks[a], o % BSIZE, chunk);
    var fs2 := fs1.(blocks := fs1.blocks[a := data]);
    Overwrite(fs1, own1, s, data);
    ExtentMapped(fs, fs1, i, e, o, |chunk|);
    assert Extent(fs2, i, Max(e, o + |chunk|)) by { SameExtent(fs1, fs2, i, Max(e, o + |chunk|)); }
    forall j: nat | j < |fs.inodes| && j != i ensures SameFile(fs, fs2, j) {
      MappedFrame(fs, fs1, i, o / BSIZE, j);
      OverwriteFrame(fs, fs1, own1, s, data, j);
    }
    forall x: nat | x < Max(e, o + |chunk|)
      ensures ByteAt(fs2, i, x) == if o <= x < o + |chunk| then chunk[x - o] else ByteAt(fs, i, x)
    {
      if x < e { BytesMapped(fs, fs1, own, i, e, o / BSIZE, x); }
      PatchedByte(fs1, own1, i, o, chunk, x);
    }
  }

  lemma SameExtent(fs: Fs, fs': Fs, i: nat, e: nat)
    requires Extent(fs, i, e) && i < |fs.inodes| && forall t: Slot :: Good(fs, t) ==> Addr(fs', t) == Addr(fs, t)
    ensures Extent(fs', i, e)
  {
    forall bn: nat | bn < MAXFILE ensures Addr(fs', FileSlot(i, bn)) == Addr(fs, FileSlot(i, bn)) { }
  }

  lemma OverwriteFrame(fs: Fs, fs1: Fs, own1: Owners, s: Slot, data: Data, j: nat)
    requires Owned(fs1, own1, {}) && Good(fs1, s) && s.k != NDIRECT && Addr(fs1, s) != 0 && |data| == BSIZE
    requires SameFile(fs, fs1, j) && j != s.inode
    ensures 0 < Addr(fs1, s) < |fs1.blocks|
    ensures SameFile(fs, fs1.(blocks := fs1.blocks[Addr(fs1, s) := data]), j)
  {
    Overwrite(fs1, own1, s, data);
    assert forall k :: 0 <= k < SLOTS ==> Good(fs1, Slot(j, k));
  }

  lemma PatchedByte(fs: Fs, own: Owners, i: nat, o: nat, chunk: Data, x: nat)
    requires Owned(fs, own, {}) && i < |fs.inodes| && o / BSIZE < MAXFILE && o % BSIZE + |chunk| <= BSIZE
    requires Addr(fs, FileSlot(i, o / BSIZE)) != 0 && x / BSIZE < MAXFILE
    ensures var a := Addr(fs, FileSlot(i, o / BSIZE));
      && 0 < a < |fs.blocks|
      && ByteAt(fs.(blocks := fs.blocks[a := Patched(fs.blocks[a], o % BSIZE, chunk)]), i, x)
         == if o <= x < o + |chunk| then chunk[x - o] else ByteAt(fs, i, x)
  {
    var s, t := FileSlot(i, o / BSIZE), FileSlot(i, x / BSIZE);
    assert SlotOk(fs, own, s) && OwnerOk(fs, own, Addr(fs, s));
    Overwrite(fs, own, s, Patched(fs.blocks[Addr(fs, s)], o % BSIZE, chunk));
    assert SlotOk(fs, own, t);
    assert s == t <==> o / BSIZE == x / BSIZE;
  }

  // One turn of the loop in readi.
  lemma ReadBytes(fs: Fs, own: Owners, i: nat, o: nat, m: nat)
    requires Owned(fs, own, {}) && i < |fs.inodes| && HoleFree(fs)
    requires 0 < m && o % BSIZE + m <= BSIZE && o + m <= fs.inodes[i].size
    ensures var a := Addr(fs, FileSlot(i, o / BSIZE));
      0 < a < |fs.blocks| && fs.blocks[a][o % BSIZE..o % BSIZE + m] == Content(fs, i)[o..o + m]
  {
    var s := FileSlot(i, o / BSIZE);
    assert o / BSIZE < MAXFILE && Addr(fs, s) != 0;
    assert SlotOk(fs, own, s) && OwnerOk(fs, own, Addr(fs, s));
    var got, want := fs.blocks[Addr(fs, s)][o % BSIZE..o % BSIZE + m], Content(fs, i)[o..o + m];
    forall x | 0 <= x < m ensures got[x] == want[x] {
      assert (o + x) / BSIZE == o / BSIZE && (o + x) % BSIZE == o % BSIZE + x;
    }
  }

  lemma WrittenNothing(fs: Fs, i: nat, e: nat, o: nat)
    requires i < |fs.inodes| && Extent(fs, i, e) && o <= e
    ensures Written(fs, fs, i, e, o, [])
  {
  }

  // Chunk after chunk.
  lemma WrittenMore(fs: Fs, fs1: Fs, fs2: Fs, i: nat, e: nat, o: nat, a: Data, b: Data)
    requires Written(fs, fs1, i, e, o, a) && Written(fs1, fs2, i, Max(e, o + |a|), o + |a|, b) && o <= e
    ensures Written(fs, fs2, i, e, o, a + b)
  {
    forall j: nat | j < |fs.inodes| && j != i ensures SameFile(fs, fs2, j) {
      assert SameFile(fs, fs1, j) && SameFile(fs1, fs2, j);
    }
    forall x: nat | x < Max(e, o + |a + b|)
      ensures ByteAt(fs2, i, x) == if o <= x < o + |a + b| then (a + b)[x - o] else ByteAt(fs, i, x)
    {
      if x < Max(e, o + |a|) { assert ByteAt(fs1, i, x) == if o <= x < o + |a| then a[x - o] else ByteAt(fs, i, x); }
    }
  }

  function Resized(fs: Fs, i: nat, n: nat): Fs
    requires i < |fs.inodes|
  {
    fs.(inodes := fs.inodes[i := fs.inodes[i].(size := n)])
  }

  lemma ResizedSame(fs: Fs, i: nat, n: nat)
    requires i < |fs.inodes|
    ensures forall t: Slot :: Addr(Resized(fs, i, n), t) == Addr(fs, t)
    ensures forall j: nat, x: nat :: ByteAt(Resized(fs, i, n), j, x) == ByteAt(fs, j, x)
    ensures forall j: nat, e: nat :: Extent(fs, j, e) ==> Extent(Resized(fs, i, n), j, e)
  {
  }

  lemma ResizedOwned(fs: Fs, own: Owners, i: nat, n: nat)
    requires Owned(fs, own, {}) && i < |fs.inodes|
    ensures Owned(Resized(fs, i, n), own, {})
  {
    var fs' := Resized(fs, i, n);
    ResizedSame(fs, i, n);
    forall s: Slot | Good(fs', s) ensures SlotOk(fs', own, s) {
      assert SlotOk(fs, own, s);
    }
    forall b | b in own ensures OwnerOk(fs', own, b) {
      assert OwnerOk(fs, own, b);
    }
  }

  /** After the loop and the size update the file is the spliced sequence, and every file is again
      free of holes. */
  lemma WriteSettles(fs: Fs, fs1: Fs, i: nat, off: nat, src: Data)
    requires HoleFree(fs) && i < |fs.inodes| && off <= fs.inodes[i].size && off + |src| <= MAXFILE * BSIZE
    requires Written(fs, fs1, i, fs.inodes[i].size, off, src)
    ensures var fs2 := Resized(fs1, i, Max(fs.inodes[i].size, off + |src|));
      && HoleFree(fs2) && Content(fs2, i) == Splice(Content(fs, i), off, src)
      && forall j: nat :: j < |fs.inodes| && j != i ==> Content(fs2, j) == Content(fs, j)
  {
    var n := Max(fs.inodes[i].size, off + |src|);
    var fs2 := Resized(fs1, i, n);
    ResizedSame(fs1, i, n);
    SpliceContent(fs, fs2, i, off, src);
    forall j: nat | j < |fs.inodes| && j != i
      ensures Content(fs2, j) == Content(fs, j) && Extent(fs2, j, fs2.inodes[j].size)
    {
      assert SameFile(fs, fs1, j);
      SameFileContent(fs, fs1, j);
      SameContent(fs1, fs2, j);
    }
  }

  lemma SameContent(fs: Fs, fs': Fs, j: nat)
    requires j < |fs.inodes| && j < |fs'.inodes| && fs'.inodes[j].size == fs.inodes[j].size
    requires forall x: nat :: ByteAt(fs', j, x) == ByteAt(fs, j, x)
    ensures Content(fs', j) == Content(fs, j)
  {
  }

  // m = min(n - tot, BSIZE - off % BSIZE)
  function ChunkLen(left: nat, o: nat): (m: nat)
    ensures m <= left && o % BSIZE + m <= BSIZE && (left > 0 ==> m > 0)
  {
    if left < BSIZE - o % BSIZE then left else BSIZE - o % BSIZE
  }

  // off + n < off in 32-bit arithmetic.
  lemma Wraps(off: nat, n: nat)
    requires off < UINT && n < UINT
    ensures (off + n) % UINT < off <==> off + n >= UINT
  {
  }

  // The whole write, once all chunks up to n bytes are in place.
  lemma SpliceContent(fs: Fs, fs': Fs, i: nat, off: nat, src: Data)
    requires i < |fs.inodes| && i < |fs'.inodes| && off <= fs.inodes[i].size
    requires fs'.inodes[i].size == Max(fs.inodes[i].size, off + |src|)
    requires forall x: nat :: x < Max(fs.inodes[i].size, off + |src|) ==>
      ByteAt(fs', i, x) == if off <= x < off + |src| then src[x - off] else ByteAt(fs, i, x)
    ensures Content(fs', i) == Splice(Content(fs, i), off, src)
  {
  }

  class FileSys {
    const size: nat
    const datastart: nat
    var bitmap: Bitmap
    var blocks: seq<Data>       // block contents, as bread returns them
    var inodes: seq<Dinode>     // in-memory inodes
    var dinodes: seq<Dinode>    // inodes on disk
    ghost var own: Owners       // which slot owns which block

    ghost predicate Sized()
      reads this
    {
      BitmapOk(bitmap, size) && |blocks| == size && |dinodes| == |inodes|
    }

    ghost function View(): Fs
      reads this
      requires Sized()
    {
      Fs(UsedBits(bitmap, size), blocks, inodes, datastart)
    }

    ghost predicate Valid()
      reads this
    {
      Sized() && Owned(View(), own, {})
    }

    // What a caller between file operations relies on: no holes, and disk inodes up to date.
    ghost predicate Settled()
      reads this
    {
      Valid() && HoleFree(View()) && dinodes == inodes
    }

    /** An empty image as mkfs lays it out: the blocks before datastart are marked used, one bit after
        the other, and no inode has any block. */
    constructor (blockCount: nat, metadata: nat, inodeCount: nat)
      requires 0 < metadata <= blockCount
      ensures Settled() && size == blockCount && datastart == metadata && |inodes| == inodeCount
      ensures forall i :: 0 <= i < inodeCount ==> Content(View(), i) == []
      ensures forall c :: 0 <= c < size ==> (View().used[c] <==> c < metadata)
    {
      size := blockCount;
      datastart := metadata;
      blocks := seq(blockCount, _ => Zero());
      inodes := seq(inodeCount, _ => Dinode(0, 0, 0, seq(NDIRECT + 1, _ => 0)));
      dinodes := seq(inodeCount, _ => Dinode(0, 0, 0, seq(NDIRECT + 1, _ => 0)));
      own := map[];
      bitmap := seq(blockCount / BPB + 1, _ => seq(BSIZE, _ => 0));
      new;
      var b := 0;
      while b < metadata
        modifies this`bitmap
        invariant 0 <= b <= metadata && BitmapOk(bitmap, size)
        invariant forall c :: 0 <= c < size ==> (UsedBits(bitmap, size)[c] <==> c < b)
      {
        InBitmap(bitmap, size, b);
        WithBitUsed(bitmap, size, b, true);
        bitmap := WithBit(bitmap, b, true);
        b := b + 1;
      }
      assert forall s: Slot :: Good(View(), s) ==> Addr(View(), s) == 0;
    }

    // The double loop of balloc: over bitmap blocks, and over the bits of each.
    method FindFree() returns (ok: bool, b: nat)
      requires Sized()
      ensures ok ==> b < size && !View().used[b] && forall c :: 0 <= c < b ==> View().used[c]
      ensures !ok ==> forall c :: 0 <= c < size ==> View().used[c]
    {
      hide UsedBits, Mask;
      var base := 0;
      while base < size
        invariant base % BPB == 0 && forall c :: 0 <= c < base && c < size ==> View().used[c]
      {
        var bi := 0;
        while bi < BPB && base + bi < size
          invariant 0 <= bi <= BPB && forall c :: 0 <= c < base + bi && c < size ==> View().used[c]
        {
          BitOfRound(bitmap, size, base, bi);
          if bitmap[base / BPB][bi / 8] & Mask(bi % 8) == 0 {
            return true, base + bi;
          }
          bi := bi + 1;
        }
        base := base + BPB;
      }
      return false, 0;
    }

    /** balloc: mark and zero the first free block; ok == false is the "out of blocks" panic. */
    method Balloc() returns (ok: bool, b: nat)
      requires Sized() && Shape(View())
      modifies this`bitmap, this`blocks
      ensures Sized()
      ensures ok ==> b < size && !old(View()).used[b] && View() == Take(old(View()), b)
      ensures ok ==> forall c :: 0 <= c < b ==> old(View()).used[c]
      ensures !ok ==> View() == old(View()) && forall c :: 0 <= c < size ==> View().used[c]
    {
      ok, b := FindFree();
      if ok {
        InBitmap(bitmap, size, b);
        WithBitUsed(bitmap, size, b, true);
        bitmap := WithBit(bitmap, b, true);
        blocks := blocks[b := Zero()];
      }
    }

    /** Clear the bit of a block; a clear bit is the "freeing free block" panic. */
    method Bfree(b: nat) returns (panics: bool)
      requires Sized() && b < size
      modifies this`bitmap
      ensures Sized() && (panics <==> !old(View()).used[b])
      ensures View() == if panics then old(View()) else old(View()).(used := old(View()).used[b := false])
    {
      hide UsedBits, Mask, WithBit;
      BitOfRound(bitmap, size, b / BPB * BPB, b % BPB);
      panics := bitmap[b / BPB][b % BPB / 8] & Mask(b % BPB % 8) == 0;
      if !panics {
        WithBitUsed(bitmap, size, b, false);
        bitmap := WithBit(bitmap, b, false);
      }
    }

    // Allocate a block for an empty slot.
    method FillSlot(s: Slot) returns (ok: bool, b: nat)
      requires Valid() && Good(View(), s) && Addr(View(), s) == 0
      requires s.k > NDIRECT ==> 0 < inodes[s.inode].addrs[NDIRECT] < size
      modifies this`bitmap, this`blocks, this`inodes, this`own
      ensures Valid() && dinodes == old(dinodes)
      ensures ok ==> datastart <= b < size && Filled(old(View()), View(), s, b) && own == old(own)[b := s]
      ensures !ok ==> View() == old(View()) && own == old(own) && (forall c :: 0 <= c < size ==> View().used[c])
      ensures ok <==> |FreeBlocks(old(View()).used)| >= 1
      ensures ok ==> |FreeBlocks(View().used)| == |FreeBlocks(old(View()).used)| - 1
    {
      ok, b := Balloc();
      if !ok { FreeNone(View().used); }
      if ok {
        FreeAfterTake(old(View()).used, b);
        AllocateOwned(old(View()), own, s, b);
        if s.k <= NDIRECT {
          inodes := inodes[s.inode := inodes[s.inode].(addrs := inodes[s.inode].addrs[s.k := b])];
        } else {
          var p := inodes[s.inode].addrs[NDIRECT];
          blocks := blocks[p := WithEntry(blocks[p], s.k - NDIRECT - 1, b)];
        }
        own := own[b := s];
      }
    }

    /** bmap: the block number of the bn-th block of the file, allocating what is missing on the way.
        ok == false is a panic, exactly if the index is out of range or the disk has fewer free blocks
        than are missing. */
    method Bmap(i: nat, bn: nat) returns (ok: bool, addr: int)
      requires Valid() && i < |inodes|
      modifies this`bitmap, this`blocks, this`inodes, this`own
      ensures Valid() && dinodes == old(dinodes)
      ensures ok ==> bn < MAXFILE && Mapped(old(View()), View(), i, bn) && addr == Addr(View(), FileSlot(i, bn))
      ensures bn < MAXFILE && Addr(old(View()), FileSlot(i, bn)) != 0 ==> ok && View() == old(View()) && own == old(own)
      ensures !ok ==> bn >= MAXFILE || forall c :: 0 <= c < size ==> View().used[c]
      ensures ok <==> bn < MAXFILE && |FreeBlocks(old(View()).used)| >= Needed(old(View()), i, bn)
      ensures ok ==> |FreeBlocks(View().used)| == |FreeBlocks(old(View()).used)| - Needed(old(View()), i, bn)
    {
      if bn < NDIRECT {
        addr, ok := inodes[i].addrs[bn], true;
        if addr == 0 {
          ok, addr := FillSlot(Slot(i, bn));
          if ok { MappedByFill(old(View()), View(), i, bn, addr); }
        } else {
          MappedAlready(View(), own, i, bn);
        }
        return;
      }
      if bn >= MAXFILE {
        return false, 0;
      }
      ok, addr := BmapIndirect(i, bn);
    }

    // The part of bmap that goes through the indirect block.
    method BmapIndirect(i: nat, bn: nat) returns (ok: bool, addr: int)
      requires Valid() && i < |inodes| && NDIRECT <= bn < MAXFILE
      modifies this`bitmap, this`blocks, this`inodes, this`own
      ensures Valid() && dinodes == old(dinodes)
      ensures ok ==> Mapped(old(View()), View(), i, bn) && addr == Addr(View(), FileSlot(i, bn))
      ensures Addr(old(View()), FileSlot(i, bn)) != 0 ==> ok && View() == old(View()) && own == old(own)
      ensures !ok ==> forall c :: 0 <= c < size ==> View().used[c]
      ensures ok <==> |FreeBlocks(old(View()).used)| >= Needed(old(View()), i, bn)
      ensures ok ==> |FreeBlocks(View().used)| == |FreeBlocks(old(View()).used)| - Needed(old(View()), i, bn)
    {
      ghost var fs0, a0 := View(), 0;
      var p, s := Slot(i, NDIRECT), FileSlot(i, bn);
      if inodes[i].addrs[NDIRECT] == 0 {
        var a;
        ok, a := FillSlot(p);
        if !ok { return false, 0; }
        a0 := a;
      }
      ghost var fs1 := View();
      PointerOwned(fs1, own, i);
      addr, ok := Entry(blocks[inodes[i].addrs[NDIRECT]], bn - NDIRECT), true;
      if addr == 0 {
        ok, addr := FillSlot(s);
        if ok && a0 != 0 { MappedByTwo(fs0, fs1, View(), i, bn, a0, addr); }
        if ok && a0 == 0 { MappedByFill(fs0, View(), i, bn, addr); }
      } else {
        MappedAlready(fs0, own, i, bn);
      }
    }

    // bread of the block at offset o, and the bytes taken from it.
    method ReadChunk(i: nat, o: nat, m: nat) returns (chunk: Data)
      requires Settled() && i < |inodes| && 0 < m && o % BSIZE + m <= BSIZE && o + m <= inodes[i].size
      modifies this`bitmap, this`blocks, this`inodes, this`own
      ensures Settled() && View() == old(View()) && own == old(own)
      ensures chunk == Content(View(), i)[o..o + m]
    {
      ReadBytes(View(), own, i, o, m);
      var ok, addr := Bmap(i, o / BSIZE);
      chunk := blocks[addr][o % BSIZE..o % BSIZE + m];
    }

    // The loop of readi.
    method ReadLoop(i: nat, off: nat, len: nat) returns (dst: Data)
      requires Settled() && i < |inodes| && off + len <= inodes[i].size
      modifies this`bitmap, this`blocks, this`inodes, this`own
      ensures Settled() && View() == old(View()) && own == old(own)
      ensures dst == Content(View(), i)[off..off + len]
    {
      hide ChunkLen, ByteAt, UsedBits;
      ghost var c := Content(View(), i);
      var tot := 0;
      dst := [];
      while tot < len
        invariant 0 <= tot <= len && Settled() && View() == old(View()) && own == old(own)
        invariant dst == c[off..off + tot]
      {
        var o := off + tot;
        var m := ChunkLen(len - tot, o);
        var chunk := ReadChunk(i, o, m);
        assert c[off..o] + c[o..o + m] == c[off..o + m];
        dst := dst + chunk;
        tot := tot + m;
      }
    }

    /** readi: the bytes from off on, cut at the end of the file; -1 if off is past the end or
        off + n wraps around. Reading allocates nothing. */
    method Readi(i: nat, off: nat, n: nat) returns (r: int, dst: Data)
      requires Settled() && i < |inodes| && off < UINT && n < UINT
      modifies this`bitmap, this`blocks, this`inodes, this`own
      ensures Settled() && View() == old(View()) && own == old(own)
      ensures r == -1 <==> off > inodes[i].size || off + n >= UINT
      ensures r != -1 ==> r == (if off + n > inodes[i].size then inodes[i].size - off else n)
      ensures r != -1 ==> dst == Content(View(), i)[off..off + r]
    {
      Wraps(off, n);
      if off > inodes[i].size || (off + n) % UINT < off {
        return -1, [];
      }
      var len := if off + n > inodes[i].size then inodes[i].size - off else n;
      dst := ReadLoop(i, off, len);
      r := len;
    }

    // One turn of the loop in writei.
    method WriteChunk(i: nat, o: nat, chunk: Data, ghost e: nat) returns (ok: bool)
      requires Valid() && i < |inodes| && Extent(View(), i, e) && e <= MAXFILE * BSIZE
      requires o <= e && 0 < |chunk| && o % BSIZE + |chunk| <= BSIZE && o + |chunk| <= MAXFILE * BSIZE
      modifies this`bitmap, this`blocks, this`inodes, this`own
      ensures Valid() && dinodes == old(dinodes)
      ensures ok ==> Written(old(View()), View(), i, e, o, chunk)
      ensures !ok ==> forall c :: 0 <= c < size ==> View().used[c]
    {
      ghost var fs, own0 := View(), own;
      var addr;
      ok, addr := Bmap(i, o / BSIZE);
      if ok {
        WrittenHolds(fs, own0, View(), own, i, e, o, chunk);
        blocks := blocks[addr := Patched(blocks[addr], o % BSIZE, chunk)];
      }
    }

    // The chunk that follows what has been written so far.
    method WriteNext(i: nat, off: nat, done: Data, chunk: Data, ghost fs: Fs, ghost e: nat) returns (ok: bool)
      requires Valid() && i < |inodes| && off <= e <= MAXFILE * BSIZE && Written(fs, View(), i, e, off, done)
      requires 0 < |chunk| && (off + |done|) % BSIZE + |chunk| <= BSIZE && off + |done| + |chunk| <= MAXFILE * BSIZE
      modifies this`bitmap, this`blocks, this`inodes, this`own
      ensures Valid() && dinodes == old(dinodes)
      ensures ok ==> Written(fs, View(), i, e, off, done + chunk)
      ensures !ok ==> forall c :: 0 <= c < size ==> View().used[c]
    {
      ghost var fs1 := View();
      ok := WriteChunk(i, off + |done|, chunk, Max(e, off + |done|));
      if ok { WrittenMore(fs, fs1, View(), i, e, off, done, chunk); }
    }

    // The loop of writei. Between turns the file is extended to off + tot, with src[..tot] in place.
    method WriteLoop(i: nat, off: nat, src: Data) returns (ok: bool)
      requires Settled() && i < |inodes| && off <= inodes[i].size && off + |src| <= MAXFILE * BSIZE
      modifies this`bitmap, this`blocks, this`inodes, this`own
      ensures Valid() && dinodes == old(dinodes)
      ensures ok ==> Written(old(View()), View(), i, old(inodes[i].size), off, src)
      ensures !ok ==> forall c :: 0 <= c < size ==> View().used[c]
    {
      ghost var fs, e := View(), inodes[i].size;
      var tot := 0;
      ok := true;
      WrittenNothing(fs, i, e, off);
      while tot < |src|
        invariant 0 <= tot <= |src| && Valid() && dinodes == old(dinodes)
        invariant Written(fs, View(), i, e, off, src[..tot])
      {
        var o := off + tot;
        var m := ChunkLen(|src| - tot, o);
        ok := WriteNext(i, off, src[..tot], src[tot..tot + m], fs, e);
        if !ok { return; }
        assert src[..tot] + src[tot..tot + m] == src[..tot + m];
        tot := tot + m;
      }
      assert src[..tot] == src;
    }

    /** writei: replaces exactly the bytes from off on by src, growing the file if src reaches past
        its end; no other file changes, and the inode on disk is up to date again. r == -1 if off is
        past the end, off + n wraps around, or the file would get too big; ok == false is the panic
        of a full disk. */
    method Writei(i: nat, off: nat, src: Data) returns (ok: bool, r: int)
      requires Settled() && i < |inodes| && off < UINT && |src| < UINT
      modifies this
      ensures ok ==> Settled() && |inodes| == old(|inodes|)
      ensures ok ==> (r == -1 <==> off > old(inodes[i].size) || off + |src| >= UINT || off + |src| > MAXFILE * BSIZE)
      ensures ok && r == -1 ==> View() == old(View()) && dinodes == old(dinodes)
      ensures ok && r != -1 ==> r == |src| && off <= old(inodes[i].size)
      ensures ok && r != -1 ==> Content(View(), i) == Splice(old(Content(View(), i)), off, src)
      ensures ok ==> forall j :: 0 <= j < |inodes| && j != i ==>
        Content(View(), j) == old(Content(View(), j)) && inodes[j] == old(inodes[j])
      ensures ok ==> inodes[i].kind == old(inodes[i].kind) && inodes[i].nlink == old(inodes[i].nlink)
      ensures !ok ==> Valid() && forall c :: 0 <= c < size ==> View().used[c]
    {
      Wraps(off, |src|);
      if off > inodes[i].size || (off + |src|) % UINT < off || off + |src| > MAXFILE * BSIZE {
        return true, -1;
      }
      ghost var fs, e := View(), inodes[i].size;
      ok := WriteLoop(i, off, src);
      if !ok { return false, 0; }
      ghost var fs1 := View();
      WriteSettles(fs, fs1, i, off, src);
      ResizedOwned(fs1, own, i, Max(e, off + |src|));
      if |src| > 0 && off + |src| > inodes[i].size {
        inodes := inodes[i := inodes[i].(size := off + |src|)];
        Iupdate(i);
      } else {
        assert inodes[i := inodes[i].(size := e)] == inodes;
      }
      assert View() == Resized(fs1, i, Max(e, off + |src|));
      r := |src|;
    }

    // The block in a live slot is inside the disk and marked used.
    lemma LiveSlot(s: Slot, dead: set<Slot>)
      requires Sized() && Owned(View(), own, dead) && Good(View(), s) && s !in dead && Addr(View(), s) != 0
      ensures 0 <= Addr(View(), s) < size && View().used[Addr(View(), s)]
      ensures Addr(View(), s) in own && own[Addr(View(), s)] == s
    {
      assert SlotOk(View(), own, s) && OwnerOk(View(), own, Addr(View(), s));
    }

    // One turn of the first loop of itrunc.
    method FreeDirect(i: nat, k: nat) returns (panics: bool)
      requires Valid() && i < |inodes| && k < NDIRECT
      modifies this`bitmap, this`inodes, this`own
      ensures !panics && Valid() && dinodes == old(dinodes)
      ensures inodes == old(inodes)[i := old(inodes[i]).(addrs := old(inodes[i].addrs)[k := 0])]
      ensures own == Without(old(own), Slot(i, k))
    {
      panics := false;
      ghost var fs, own0, s := View(), own, Slot(i, k);
      WithoutBlock(fs, own0, {}, s);
      var a := inodes[i].addrs[k];
      if a != 0 {
        LiveSlot(s, {});
        panics := Bfree(a);
        inodes := inodes[i := inodes[i].(addrs := inodes[i].addrs[k := 0])];
        own := own - {a};
        FreeOwned(fs, own0, {}, s, View());
      } else {
        assert inodes[i].addrs[k := 0] == inodes[i].addrs;
      }
    }

    // One turn of the second loop: the entry is not cleared in the indirect block.
    method FreeEntry(i: nat, j: nat, ghost dead: set<Slot>) returns (panics: bool)
      requires Sized() && Owned(View(), own, dead) && i < |inodes| && j < NINDIRECT
      requires Slot(i, NDIRECT + 1 + j) !in dead && 0 < inodes[i].addrs[NDIRECT] < size
      modifies this`bitmap, this`own
      ensures !panics && Sized() && Owned(View(), own, dead + {Slot(i, NDIRECT + 1 + j)})
      ensures own == Without(old(own), Slot(i, NDIRECT + 1 + j))
    {
      panics := false;
      ghost var fs, own0, s := View(), own, Slot(i, NDIRECT + 1 + j);
      WithoutBlock(fs, own0, dead, s);
      var a := Entry(blocks[inodes[i].addrs[NDIRECT]], j);
      if a != 0 {
        LiveSlot(s, dead);
        panics := Bfree(a);
        own := own - {a};
        FreeOwned(fs, own0, dead, s, View());
      }
    }

    // First loop of itrunc.
    method FreeDirects(i: nat) returns (panics: bool)
      requires Valid() && i < |inodes|
      modifies this`bitmap, this`inodes, this`own
      ensures !panics && Valid() && dinodes == old(dinodes) && |inodes| == old(|inodes|)
      ensures own == WithoutRange(old(own), i, 0, NDIRECT)
      ensures forall j :: 0 <= j < |inodes| && j != i ==> inodes[j] == old(inodes[j])
      ensures inodes[i] == old(inodes[i]).(addrs := inodes[i].addrs)
      ensures forall k :: 0 <= k < NDIRECT ==> inodes[i].addrs[k] == 0
      ensures inodes[i].addrs[NDIRECT] == old(inodes[i].addrs[NDIRECT])
    {
      panics := false;
      var k := 0;
      while k < NDIRECT
        invariant 0 <= k <= NDIRECT && !panics && Valid() && dinodes == old(dinodes) && |inodes| == old(|inodes|)
        invariant own == WithoutRange(old(own), i, 0, k)
        invariant forall j :: 0 <= j < |inodes| && j != i ==> inodes[j] == old(inodes[j])
        invariant inodes[i] == old(inodes[i]).(addrs := inodes[i].addrs)
        invariant forall l :: 0 <= l < k ==> inodes[i].addrs[l] == 0
        invariant inodes[i].addrs[NDIRECT] == old(inodes[i].addrs[NDIRECT])
      {
        panics := FreeDirect(i, k);
        k := k + 1;
      }
    }

    // Second loop of itrunc, and the release of the indirect block itself.
    method FreeIndirect(i: nat) returns (panics: bool)
      requires Valid() && i < |inodes| && inodes[i].addrs[NDIRECT] != 0
      modifies this`bitmap, this`inodes, this`own
      ensures !panics && Valid() && dinodes == old(dinodes)
      ensures own == WithoutRange(old(own), i, NDIRECT, SLOTS)
      ensures inodes == old(inodes)[i := old(inodes[i]).(addrs := old(inodes[i].addrs)[NDIRECT := 0])]
    {
      panics := false;
      PointerOwned(View(), own, i);
      ghost var dead: set<Slot> := {};
      var j := 0;
      while j < NINDIRECT
        invariant 0 <= j <= NINDIRECT && !panics && Sized() && Owned(View(), own, dead) && inodes == old(inodes)
        invariant own == WithoutRange(old(own), i, NDIRECT + 1, NDIRECT + 1 + j)
        invariant dead == set k | NDIRECT < k < NDIRECT + 1 + j :: Slot(i, k)
      {
        panics := FreeEntry(i, j, dead);
        dead := dead + {Slot(i, NDIRECT + 1 + j)};
        j := j + 1;
      }
      panics := FreePointer(i, dead);
    }

    method FreePointer(i: nat, ghost dead: set<Slot>) returns (panics: bool)
      requires Sized() && Owned(View(), own, dead) && i < |inodes| && inodes[i].addrs[NDIRECT] != 0
      requires dead == set k | NDIRECT < k < SLOTS :: Slot(i, k)
      modifies this`bitmap, this`inodes, this`own
      ensures !panics && Valid() && own == Without(old(own), Slot(i, NDIRECT))
      ensures inodes == old(inodes)[i := old(inodes[i]).(addrs := old(inodes[i].addrs)[NDIRECT := 0])]
    {
      ghost var fs, own0, s := View(), own, Slot(i, NDIRECT);
      LiveSlot(s, dead);
      WithoutBlock(fs, own0, dead, s);
      var a := inodes[i].addrs[NDIRECT];
      panics := Bfree(a);
      inodes := inodes[i := inodes[i].(addrs := inodes[i].addrs[NDIRECT := 0])];
      own := own - {a};
      FreeOwned(fs, own0, dead, s, View());
      NoneDead(View(), own, dead);
    }

    /** itrunc: gives back every block of the file, direct, indirect and the indirect block itself,
        each exactly once and never one that is free; all other files are untouched. */
    method Itrunc(i: nat) returns (panics: bool)
      requires Settled() && i < |inodes|
      modifies this`bitmap, this`inodes, this`own, this`dinodes
      ensures !panics && Settled() && |inodes| == old(|inodes|)
      ensures inodes[i].size == 0 && inodes[i].kind == old(inodes[i].kind) && inodes[i].nlink == old(inodes[i].nlink)
      ensures own == WithoutRange(old(own), i, 0, SLOTS)
      ensures forall b: nat :: 0 < b < size ==>
        (View().used[b] <==> old(View()).used[b] && forall k :: 0 <= k < SLOTS ==> Addr(old(View()), Slot(i, k)) != b)
      ensures forall j :: 0 <= j < |inodes| && j != i ==>
        Content(View(), j) == old(Content(View(), j)) && inodes[j] == old(inodes[j])
    {
      hide Content, HoleFree, UsedBits;
      ghost var fs, own0 := View(), own;
      panics := FreeDirects(i);
      if inodes[i].addrs[NDIRECT] != 0 {
        var p := FreeIndirect(i);
        panics := panics || p;
      } else {
        NoEntries(View(), own, i);
      }
      ghost var fs1 := View();
      ResizedOwned(fs1, own, i, 0);
      inodes := inodes[i := inodes[i].(size := 0)];
      Iupdate(i);
      assert own == WithoutRange(own0, i, 0, SLOTS);
      TruncSettles(fs, own0, View(), own, i);
    }

    // Copy the in-memory inode to disk.
    method Iupdate(i: nat)
      requires i < |inodes| == |dinodes|
      modifies this`dinodes
      ensures dinodes == old(dinodes)[i := inodes[i]]
    {
      dinodes := dinodes[i := inodes[i]];
    }
  }

  lemma NoEntries(fs: Fs, own: Owners, i: nat)
    requires Owned(fs, own, {}) && i < |fs.inodes| && fs.inodes[i].addrs[NDIRECT] == 0
    ensures own == WithoutRange(own, i, NDIRECT, SLOTS)
  {
    forall b | b in own ensures !(own[b].inode == i && NDIRECT <= own[b].k < SLOTS) {
      assert OwnerOk(fs, own, b);
    }
  }

  lemma TruncSettles(fs: Fs, own: Owners, fs': Fs, own': Owners, i: nat)
    requires Owned(fs, own, {}) && HoleFree(fs) && i < |fs.inodes|
    requires own' == WithoutRange(own, i, 0, SLOTS) && Owned(fs', own', {})
    requires |fs'.used| == |fs.used| && fs'.datastart == fs.datastart && fs'.blocks == fs.blocks
    requires |fs'.inodes| == |fs.inodes| && forall j :: 0 <= j < |fs.inodes| && j != i ==> fs'.inodes[j] == fs.inodes[j]
    requires fs'.inodes[i].size == 0 && forall k :: 0 <= k <= NDIRECT ==> fs'.inodes[i].addrs[k] == 0
    ensures HoleFree(fs')
    ensures forall j: nat :: j < |fs.inodes| && j != i ==> Content(fs', j) == Content(fs, j)
    ensures forall b: nat :: 0 < b < |fs.used| ==>
      (fs'.used[b] <==> fs.used[b] && forall k :: 0 <= k < SLOTS ==> Addr(fs, Slot(i, k)) != b)
  {
    forall j: nat | j < |fs.inodes| && j != i ensures Content(fs', j) == Content(fs, j) && Extent(fs', j, fs.inodes[j].size) {
      SameFileContent(fs, fs', j);
    }
    forall b: nat | 0 < b < |fs.used|
      ensures fs'.used[b] <==> fs.used[b] && forall k :: 0 <= k < SLOTS ==> Addr(fs, Slot(i, k)) != b
    {
      FreedExactly(fs, own, fs', i, b);
    }
  }

  lemma PointerOwned(fs: Fs, own: Owners, i: nat)
    requires Owned(fs, own, {}) && i < |fs.inodes| && fs.inodes[i].addrs[NDIRECT] != 0
    ensures fs.datastart <= fs.inodes[i].addrs[NDIRECT] < |fs.blocks|
  {
    assert SlotOk(fs, own, Slot(i, NDIRECT));
    assert OwnerOk(fs, own, Addr(fs, Slot(i, NDIRECT)));
  }
}
