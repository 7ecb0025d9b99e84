/** The two-level page tables of vm.c over the page allocator of kalloc.c, on values. Addresses are
    counted in pages: a directory entry covers 1024 pages, the user part is the first half of the
    address space (section 4.3, 32-bit paging, of the Intel SDM, volume 3A). */
module PageTable {
  const PGSIZE: nat := 4096
  const NPTENTRIES: nat := 1024
  const VPAGES: nat := 0x100000       // pages in the address space
  const USERPAGES: nat := 0x80000     // KERNBASE / PGSIZE
  const PHYSTOP: nat := 0xE000        // frames of physical memory
  const PTE_W: nat := 2
  const PTE_U: nat := 4

  // An entry; perm holds the flag bits other than PTE_P.
  datatype Pte = Pte(frame: nat, present: bool, perm: nat)

  // What a frame holds: a list node of the allocator, the bytes of a page, or a table.
  datatype Page = Run(next: nat) | Bytes(bytes: seq<int>) | Table(e: seq<Pte>)

  /** Physical memory. `first` is the first frame after the kernel; `free` is the free list, head first. */
  datatype Mem = Mem(first: nat, page: map<nat, Page>, free: seq<nat>)

  // ---------- the free list ----------

  function Head(free: seq<nat>): nat {
    if free == [] then 0 else free[0]
  }

  predicate Managed(m: Mem, f: nat) {
    0 < m.first <= f < PHYSTOP
  }

  // No frame is on the list twice, and each frame holds the link to the next.
  ghost predicate Pool(m: Mem) {
    && (forall i, j :: 0 <= i < j < |m.free| ==> m.free[i] != m.free[j])
    && (forall i :: 0 <= i < |m.free| ==> Managed(m, m.free[i]) && m.free[i] in m.page)
    && (forall i :: 0 <= i < |m.free| ==> m.page[m.free[i]] == Run(Head(m.free[i + 1..])))
  }

  function Freed(m: Mem, f: nat): Mem {
    m.(page := m.page[f := Run(Head(m.free))], free := [f] + m.free)
  }

  function Taken(m: Mem, p: Page): Mem
    requires m.free != []
  {
    m.(page := m.page[m.free[0] := p], free := m.free[1..])
  }

  lemma FreedPool(m: Mem, f: nat)
    requires Pool(m) && Managed(m, f) && f !in m.free
    ensures Pool(Freed(m, f))
  {
    var m' := Freed(m, f);
    forall i | 0 <= i < |m'.free| ensures m'.page[m'.free[i]] == Run(Head(m'.free[i + 1..])) {
      if i == 0 { assert m'.free[1..] == m.free; } else { assert m'.free[i + 1..] == m.free[i..]; }
    }
  }

  lemma TakenPool(m: Mem, p: Page)
    requires Pool(m) && m.free != []
    ensures Pool(Taken(m, p)) && m.free[0] !in Taken(m, p).free
    ensures forall f :: f in m.free <==> f == m.free[0] || f in Taken(m, p).free
  {
    var m' := Taken(m, p);
    assert m.free == [m.free[0]] + m.free[1..];
    forall i | 0 <= i < |m'.free| ensures m'.page[m'.free[i]] == Run(Head(m'.free[i + 1..])) {
      assert m'.free[i + 1..] == m.free[i + 2..] && m'.free[i] == m.free[i + 1];
    }
  }

  // ---------- tables ----------

  const NONE: Pte := Pte(0, false, 0)

  function Entry(m: Mem, f: nat, i: nat): Pte {
    if f in m.page && m.page[f].Table? && i < |m.page[f].e| then m.page[f].e[i] else NONE
  }

  // The entry that translates page v, if there is a table for it.
  function Leaf(m: Mem, d: nat, v: nat): Pte {
    if Entry(m, d, v / NPTENTRIES).present then Entry(m, Entry(m, d, v / NPTENTRIES).frame, v % NPTENTRIES) else NONE
  }

  function ZeroTable(): Page {
    Table(seq(NPTENTRIES, _ => NONE))
  }

  function ZeroBytes(): Page {
    Bytes(seq(PGSIZE, _ => 0))
  }

  /** The places of an address space that own a frame: the directory, its tables, its user pages. */
  datatype Slot = Dir | Tab(i: nat) | User(v: nat)

  predicate Live(m: Mem, d: nat, s: Slot) {
    match s
    case Dir => true
    case Tab(i) => i < NPTENTRIES && Entry(m, d, i).present
    case User(v) => v < USERPAGES && Leaf(m, d, v).present
  }

  function FrameAt(m: Mem, d: nat, s: Slot): nat {
    match s
    case Dir => d
    case Tab(i) => Entry(m, d, i).frame
    case User(v) => Leaf(m, d, v).frame
  }

  predicate KindOk(m: Mem, f: nat, s: Slot) {
    && Managed(m, f) && f in m.page && f !in m.free
    && if s.User? then m.page[f].Bytes? && |m.page[f].bytes| == PGSIZE
       else m.page[f].Table? && |m.page[f].e| == NPTENTRIES
  }

  ghost predicate SlotsOk(m: Mem, d: nat) {
    forall s :: Live(m, d, s) ==> KindOk(m, FrameAt(m, d, s), s)
  }

  ghost predicate Injective(m: Mem, d: nat) {
    forall s, t :: Live(m, d, s) && Live(m, d, t) && FrameAt(m, d, s) == FrameAt(m, d, t) ==> s == t
  }

  /** A sound address space: every frame it uses is its own, and none is free. */
  ghost predicate Space(m: Mem, d: nat) {
    Pool(m) && SlotsOk(m, d) && Injective(m, d)
  }

  ghost predicate Owns(m: Mem, d: nat, f: nat) {
    exists s :: Live(m, d, s) && FrameAt(m, d, s) == f
  }

  /** Free, or used by this address space. */
  ghost predicate Has(m: Mem, d: nat, f: nat) {
    f in m.free || Owns(m, d, f)
  }

  // A frame in nobody's hands but the caller's: neither free nor part of d.
  ghost predicate Loose(m: Mem, d: nat, f: nat) {
    Managed(m, f) && f in m.page && m.page[f].Bytes? && |m.page[f].bytes| == PGSIZE && !Has(m, d, f)
  }

  // ---------- a new table ----------

  // walkpgdir with alloc: a zeroed table for directory entry i.
  function WithTable(m: Mem, d: nat, i: nat): Mem
    requires m.free != [] && d in m.page && m.page[d].Table? && i < |m.page[d].e|
  {
    var t := m.free[0];
    Mem(m.first, m.page[t := ZeroTable()][d := Table(m.page[d].e[i := Pte(t, true, PTE_W + PTE_U)])], m.free[1..])
  }

  ghost predicate NeedsTable(m: Mem, d: nat, i: nat) {
    Space(m, d) && i < NPTENTRIES && !Entry(m, d, i).present && m.free != []
  }

  lemma DirIsTable(m: Mem, d: nat)
    requires SlotsOk(m, d)
    ensures d in m.page && m.page[d].Table? && |m.page[d].e| == NPTENTRIES && Managed(m, d) && d !in m.free
  {
    assert Live(m, d, Dir) && KindOk(m, FrameAt(m, d, Dir), Dir);
  }

  lemma TabIsTable(m: Mem, d: nat, i: nat)
    requires Space(m, d) && i < NPTENTRIES && Entry(m, d, i).present
    ensures var t := Entry(m, d, i).frame;
      t in m.page && m.page[t].Table? && |m.page[t].e| == NPTENTRIES && t != d && t !in m.free
    ensures forall k :: 0 <= k < NPTENTRIES && k != i && Entry(m, d, k).present ==>
      Entry(m, d, k).frame != Entry(m, d, i).frame
  {
    assert Live(m, d, Tab(i)) && KindOk(m, FrameAt(m, d, Tab(i)), Tab(i));
    assert Live(m, d, Dir);
    forall k | 0 <= k < NPTENTRIES && k != i && Entry(m, d, k).present
      ensures Entry(m, d, k).frame != Entry(m, d, i).frame
    {
      assert Live(m, d, Tab(k)) && Tab(k) != Tab(i);
    }
  }

  lemma WithTableEntries(m: Mem, d: nat, i: nat)
    requires NeedsTable(m, d, i) && d in m.page && m.page[d].Table? && i < |m.page[d].e|
    ensures var m' := WithTable(m, d, i);
      && (forall k: nat :: k != i ==> Entry(m', d, k) == Entry(m, d, k))
      && Entry(m', d, i) == Pte(m.free[0], true, PTE_W + PTE_U)
      && (forall v: nat :: v < VPAGES ==> Leaf(m', d, v) == Leaf(m, d, v))
  {
    DirIsTable(m, d);
    var m' := WithTable(m, d, i);
    forall v: nat | v < VPAGES ensures Leaf(m', d, v) == Leaf(m, d, v) {
      var k := v / NPTENTRIES;
      if k != i && Entry(m, d, k).present { TabIsTable(m, d, k); }
    }
  }

  lemma WithTableOk(m: Mem, d: nat, i: nat)
    requires NeedsTable(m, d, i) && d in m.page && m.page[d].Table? && i < |m.page[d].e|
    ensures Space(WithTable(m, d, i), d)
    ensures forall f :: Has(WithTable(m, d, i), d, f) <==> Has(m, d, f)
  {
    DirIsTable(m, d);
    var m' := WithTable(m, d, i);
    TakenPool(m, ZeroTable());
    WithTableEntries(m, d, i);
    assert Pool(m') by { hide SlotsOk, Injective; }
    forall s | Live(m', d, s)
      ensures s != Tab(i) ==> Live(m, d, s) && FrameAt(m', d, s) == FrameAt(m, d, s)
      ensures KindOk(m', FrameAt(m', d, s), s)
    {
      if s != Tab(i) { assert Live(m, d, s) && KindOk(m, FrameAt(m, d, s), s); }
    }
    assert forall s :: Live(m, d, s) ==> Live(m', d, s) && s != Tab(i);
    forall f ensures Has(m', d, f) <==> Has(m, d, f) {
      if f == m.free[0] { assert Live(m', d, Tab(i)) && FrameAt(m', d, Tab(i)) == f; }
      if Owns(m, d, f) { var s :| Live(m, d, s) && FrameAt(m, d, s) == f; assert Live(m', d, s) && FrameAt(m', d, s) == f; }
    }
  }

  // ---------- one entry ----------

  function WithEntry(m: Mem, f: nat, j: nat, pte: Pte): Mem
    requires f in m.page && m.page[f].Table? && j < |m.page[f].e|
  {
    m.(page := m.page[f := Table(m.page[f].e[j := pte])])
  }

  // The table for page v is there.
  ghost predicate HasTable(m: Mem, d: nat, v: nat) {
    Space(m, d) && v < VPAGES && Entry(m, d, v / NPTENTRIES).present
  }

  function WithLeaf(m: Mem, d: nat, v: nat, pte: Pte): Mem {
    var t := Entry(m, d, v / NPTENTRIES).frame;
    if t in m.page && m.page[t].Table? && v % NPTENTRIES < |m.page[t].e|
    then WithEntry(m, t, v % NPTENTRIES, pte) else m
  }

  lemma WithLeafEntries(m: Mem, d: nat, v: nat, pte: Pte)
    requires HasTable(m, d, v)
    ensures var m' := WithLeaf(m, d, v, pte);
      && (forall k: nat :: Entry(m', d, k) == Entry(m, d, k))
      && (forall w: nat :: w < VPAGES ==> Leaf(m', d, w) == if w == v then pte else Leaf(m, d, w))
  {
    DirIsTable(m, d);
    TabIsTable(m, d, v / NPTENTRIES);
    var m' := WithLeaf(m, d, v, pte);
    forall w: nat | w < VPAGES ensures Leaf(m', d, w) == if w == v then pte else Leaf(m, d, w) {
      var k := w / NPTENTRIES;
      if k != v / NPTENTRIES && Entry(m, d, k).present { TabIsTable(m, d, k); }
      if k == v / NPTENTRIES { SamePage(v, w); }
    }
  }

  lemma SamePage(v: nat, w: nat)
    ensures v == w <==> v / NPTENTRIES == w / NPTENTRIES && v % NPTENTRIES == w % NPTENTRIES
  {
  }

  // An entry may be set if its page is not mapped and, in the user part, the frame is the caller's.
  ghost predicate CanMap(m: Mem, d: nat, v: nat, pte: Pte) {
    HasTable(m, d, v) && !Leaf(m, d, v).present && pte.present && (v < USERPAGES ==> Loose(m, d, pte.frame))
  }

  lemma MappedOk(m: Mem, d: nat, v: nat, pte: Pte)
    requires CanMap(m, d, v, pte)
    ensures Space(WithLeaf(m, d, v, pte), d)
    ensures forall f :: Has(WithLeaf(m, d, v, pte), d, f) <==> Has(m, d, f) || (v < USERPAGES && f == pte.frame)
  {
    var m' := WithLeaf(m, d, v, pte);
    TabIsTable(m, d, v / NPTENTRIES);
    WithLeafEntries(m, d, v, pte);
    assert Pool(m') by { hide SlotsOk, Injective; }
    forall s | Live(m', d, s)
      ensures s != User(v) ==> Live(m, d, s) && FrameAt(m', d, s) == FrameAt(m, d, s)
      ensures KindOk(m', FrameAt(m', d, s), s)
    {
      if s != User(v) { assert Live(m, d, s) && KindOk(m, FrameAt(m, d, s), s); }
    }
    assert forall s :: Live(m, d, s) ==> Live(m', d, s) && s != User(v);
    forall s | Live(m, d, s) ensures FrameAt(m, d, s) != pte.frame || v >= USERPAGES {
      assert Owns(m, d, FrameAt(m, d, s));
    }
    forall f ensures Has(m', d, f) <==> Has(m, d, f) || (v < USERPAGES && f == pte.frame) {
      if v < USERPAGES { assert Live(m', d, User(v)) && FrameAt(m', d, User(v)) == pte.frame; }
      if Owns(m, d, f) { var s :| Live(m, d, s) && FrameAt(m, d, s) == f; assert Live(m', d, s) && FrameAt(m', d, s) == f; }
    }
  }

  // The body of the loop of deallocuvm: free the page and clear its entry.
  function Unmapped(m: Mem, d: nat, v: nat): Mem {
    WithLeaf(Freed(m, Leaf(m, d, v).frame), d, v, NONE)
  }

  ghost predicate CanUnmap(m: Mem, d: nat, v: nat) {
    Space(m, d) && v < USERPAGES && Leaf(m, d, v).present
  }

  lemma UnmappedEntries(m: Mem, d: nat, v: nat)
    requires CanUnmap(m, d, v)
    ensures var m', f, t := Unmapped(m, d, v), Leaf(m, d, v).frame, Entry(m, d, v / NPTENTRIES).frame;
      && KindOk(m, f, User(v)) && t in m.page && m.page[t].Table? && |m.page[t].e| == NPTENTRIES && f != t && t !in m.free
      && m' == Mem(m.first, m.page[f := Run(Head(m.free))][t := Table(m.page[t].e[v % NPTENTRIES := NONE])], [f] + m.free)
      && (forall k: nat :: Entry(m', d, k) == Entry(m, d, k))
      && (forall w: nat :: w < VPAGES ==> Leaf(m', d, w) == if w == v then NONE else Leaf(m, d, w))
  {
    var f, i := Leaf(m, d, v).frame, v / NPTENTRIES;
    DirIsTable(m, d);
    TabIsTable(m, d, i);
    assert Live(m, d, User(v)) && KindOk(m, FrameAt(m, d, User(v)), User(v)) && Live(m, d, Tab(i)) && Live(m, d, Dir);
    var m' := Unmapped(m, d, v);
    forall w: nat | w < VPAGES ensures Leaf(m', d, w) == if w == v then NONE else Leaf(m, d, w) {
      var k := w / NPTENTRIES;
      if Entry(m, d, k).present {
        TabIsTable(m, d, k);
        assert Live(m, d, Tab(k)) && Tab(k) != User(v);
      }
      SamePage(v, w);
    }
  }

  lemma UnmappedOk(m: Mem, d: nat, v: nat)
    requires CanUnmap(m, d, v)
    ensures Space(Unmapped(m, d, v), d)
    ensures forall f :: Has(Unmapped(m, d, v), d, f) <==> Has(m, d, f)
  {
    var m', g := Unmapped(m, d, v), Leaf(m, d, v).frame;
    UnmappedEntries(m, d, v);
    FreedPool(m, g);
    assert Pool(m') by { hide SlotsOk, Injective; }
    assert Live(m, d, User(v)) && FrameAt(m, d, User(v)) == g;
    forall s | Live(m', d, s)
      ensures Live(m, d, s) && FrameAt(m', d, s) == FrameAt(m, d, s) && s != User(v) && KindOk(m', FrameAt(m', d, s), s)
    {
      assert Live(m, d, s) && KindOk(m, FrameAt(m, d, s), s) && s != User(v);
    }
    forall f ensures Has(m', d, f) <==> Has(m, d, f) {
      if Owns(m, d, f) {
        var s :| Live(m, d, s) && FrameAt(m, d, s) == f;
        if s != User(v) { assert Live(m', d, s) && FrameAt(m', d, s) == f; }
      }
    }
  }
}
