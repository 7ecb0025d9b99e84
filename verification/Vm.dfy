/** kalloc.c and vm.c: the code, proved against PageTable. Sizes are in bytes, as in the source; the
    page-aligned addresses that the loops step through are counted in pages. */
module Vm {
  import opened PageTable
  import opened Wrappers

  const KERNBASE: nat := 0x8000_0000

  // PGROUNDUP(sz) / PGSIZE: page v starts below sz exactly if v < Pages(sz).
  function Pages(sz: nat): nat {
    (sz + 4095) / 4096
  }

  // ---------- what an operation leaves alone ----------

  ghost predicate Still(m: Mem, m': Mem, f: nat) {
    f in m.page && f !in m.free ==> f in m'.page && m'.page[f] == m.page[f] && f !in m'.free
  }

  ghost predicate SameHas(m: Mem, m': Mem, d: nat) {
    forall f :: Has(m', d, f) <==> Has(m, d, f)
  }

  ghost predicate SameLeaves(m: Mem, m': Mem, d: nat) {
    forall v: nat :: v < VPAGES ==> Leaf(m', d, v) == Leaf(m, d, v)
  }

  // Growing d touches free frames and tables of d only.
  ghost predicate Kept(m: Mem, m': Mem, d: nat) {
    forall f :: !(f in m.page && m.page[f].Table? && Owns(m, d, f)) ==> Still(m, m', f)
  }

  lemma KeptTrans(m: Mem, m1: Mem, m2: Mem, d: nat)
    requires Kept(m, m1, d) && Kept(m1, m2, d)
    requires forall f :: Has(m1, d, f) ==> Has(m, d, f) || !(f in m.page && m.page[f].Table?)
    ensures Kept(m, m2, d)
  {
    forall f | !(f in m.page && m.page[f].Table? && Owns(m, d, f)) ensures Still(m, m2, f) {
      assert Still(m, m1, f);
      if f in m.page && f !in m.free {
        assert Has(m1, d, f) ==> Has(m, d, f) || !m.page[f].Table?;
        assert Still(m1, m2, f);
      }
    }
  }

  // A space none of whose frames has changed.
  lemma SpaceStill(m: Mem, m': Mem, d: nat)
    requires Space(m, d) && Pool(m') && m'.first == m.first
    requires forall f :: Owns(m, d, f) ==> Still(m, m', f)
    ensures Space(m', d) && SameLeaves(m, m', d)
    ensures forall f :: Owns(m', d, f) <==> Owns(m, d, f)
    ensures forall k: nat :: Entry(m', d, k) == Entry(m, d, k)
  {
    forall s | Live(m, d, s) ensures Still(m, m', FrameAt(m, d, s)) && KindOk(m, FrameAt(m, d, s), s) {
      assert Owns(m, d, FrameAt(m, d, s));
    }
    assert Live(m, d, Dir) && FrameAt(m, d, Dir) == d;
    assert forall k: nat :: Entry(m', d, k) == Entry(m, d, k);
    forall v: nat | v < VPAGES ensures Leaf(m', d, v) == Leaf(m, d, v) {
      var k := v / NPTENTRIES;
      if Entry(m, d, k).present { assert Live(m, d, Tab(k)) && FrameAt(m, d, Tab(k)) == Entry(m, d, k).frame; }
    }
    forall s ensures Live(m', d, s) == Live(m, d, s) && (Live(m, d, s) ==> FrameAt(m', d, s) == FrameAt(m, d, s)) {
    }
  }

  // ---------- how many frames an operation takes ----------

  // The directory entries for pages lo..hi that have no table yet.
  ghost function Missing(m: Mem, d: nat, lo: nat, hi: nat): set<nat> {
    set i: nat | i < NPTENTRIES && !Entry(m, d, i).present && lo < hi && lo < (i + 1) * NPTENTRIES && i * NPTENTRIES < hi
  }

  /** From m to m', the tables missing for pages lo..hi were added, and `pages` more frames were taken. */
  ghost predicate Spent(m: Mem, m': Mem, d: nat, lo: nat, hi: nat, pages: nat) {
    && (forall i: nat :: i < NPTENTRIES ==> (Entry(m', d, i).present <==> Entry(m, d, i).present || i in Missing(m, d, lo, hi)))
    && |m'.free| + |Missing(m, d, lo, hi)| + pages == |m.free|
  }

  lemma SpentNone(m: Mem, d: nat, lo: nat)
    ensures Spent(m, m, d, lo, lo, 0)
  {
    assert Missing(m, d, lo, lo) == {};
  }

  // One more page, at a.
  lemma SpentMore(m: Mem, m1: Mem, m2: Mem, d: nat, lo: nat, a: nat, p: nat, q: nat)
    requires Spent(m, m1, d, lo, a, p) && Spent(m1, m2, d, a, a + 1, q) && lo <= a
    ensures Spent(m, m2, d, lo, a + 1, p + q)
  {
    MissingMore(m, m1, d, lo, a, a + 1, p);
  }

  lemma MissingMore(m: Mem, m1: Mem, d: nat, lo: nat, a: nat, hi: nat, p: nat)
    requires Spent(m, m1, d, lo, a, p) && lo <= a < hi
    ensures Missing(m, d, lo, hi) == Missing(m, d, lo, a) + Missing(m1, d, a, hi)
    ensures |Missing(m, d, lo, hi)| == |Missing(m, d, lo, a)| + |Missing(m1, d, a, hi)|
  {
    assert Missing(m, d, lo, a) !! Missing(m1, d, a, hi);
  }

  lemma MissingGrows(m: Mem, d: nat, lo: nat, a: nat, hi: nat)
    requires a <= hi
    ensures |Missing(m, d, lo, a)| <= |Missing(m, d, lo, hi)|
  {
    Subset(Missing(m, d, lo, a), Missing(m, d, lo, hi));
  }

  lemma Subset(x: set<nat>, y: set<nat>)
    requires x <= y
    ensures |x| <= |y|
  {
    assert y == x + (y - x);
  }

  // A frame taken for a page leaves the tables alone.
  lemma SpentPage(m: Mem, m1: Mem, m2: Mem, d: nat, a: nat)
    requires (forall i: nat :: Entry(m1, d, i) == Entry(m, d, i)) && |m1.free| + 1 == |m.free|
    ensures Missing(m1, d, a, a + 1) == Missing(m, d, a, a + 1)
    ensures Spent(m1, m2, d, a, a + 1, 0) ==> Spent(m, m2, d, a, a + 1, 1)
  {
    assert Missing(m1, d, a, a + 1) == Missing(m, d, a, a + 1);
  }

  lemma OneTable(m: Mem, d: nat, v: nat)
    requires v < VPAGES
    ensures Missing(m, d, v, v + 1) == if Entry(m, d, v / NPTENTRIES).present then {} else {v / NPTENTRIES}
  {
  }

  lemma FreedFrames(m0: Mem, m: Mem, f: nat)
    ensures Freed(m, f).first == m.first && forall g :: g in Freed(m, f).free <==> g in m.free || g == f
    ensures forall g: nat :: g == f || !Still(m0, m, g) || Still(m0, Freed(m, f), g)
  {
  }

  class Machine {
    var first: nat
    var page: map<nat, Page>
    var freelist: nat          // kmem.freelist, 0 for the empty list
    ghost var free: seq<nat>   // the frames on it, in order

    ghost predicate Linked()
      reads this
    {
      freelist == Head(free) && Pool(View())
    }

    ghost function View(): Mem
      reads this
    {
      Mem(first, page, free)
    }

    // ---------- kalloc.c ----------

    /** Before kinit1: memory with any contents, and an empty list. */
    constructor (end: nat, contents: map<nat, Page>)
      ensures Linked() && View() == Mem(end, contents, [])
    {
      first, page, freelist, free := end, contents, 0, [];
    }

    /** kfree. The panic guards that the frame is managed. */
    method Kfree(f: nat)
      requires Linked() && Managed(View(), f) && f !in free
      modifies this
      ensures Linked() && View() == Freed(old(View()), f)
    {
      FreedPool(View(), f);
      page := page[f := Run(freelist)];
      freelist := f;
      free := [f] + free;
    }

    /** kalloc, followed by the caller's memset or memmove of the page. */
    method Kalloc(p: Page) returns (f: Option<nat>)
      requires Linked()
      modifies this
      ensures Linked()
      ensures f == None <==> old(free) == []
      ensures f == None ==> View() == old(View())
      ensures f.Some? ==> f.value == old(free)[0] && View() == Taken(old(View()), p)
    {
      if freelist == 0 {
        assert free != [] ==> Managed(View(), free[0]);
        return None;
      }
      TakenPool(View(), p);
      f := Some(freelist);
      assert page[free[0]] == Run(Head(free[1..]));
      freelist := page[freelist].next;
      free := free[1..];
      page := page[f.value := p];
    }

    /** freerange over frames lo..hi, none of which is on the list yet. */
    method FreeRange(lo: nat, hi: nat)
      requires Linked() && 0 < first <= lo && hi <= PHYSTOP && forall f :: lo <= f < hi ==> f !in free
      modifies this
      ensures Linked() && first == old(first)
      ensures forall f :: f in free <==> f in old(free) || lo <= f < hi
      ensures forall f: nat :: f in old(free) || lo <= f < hi || Still(old(View()), View(), f)
    {
      hide Pool, Freed;
      var p := lo;
      while p < hi
        invariant lo <= p && (p <= hi || p == lo) && Linked() && first == old(first)
        invariant forall f :: f in free <==> f in old(free) || lo <= f < p
        invariant forall f: nat :: f in old(free) || lo <= f < p || Still(old(View()), View(), f)
      {
        FreedFrames(old(View()), View(), p);
        Kfree(p);
        p := p + 1;
      }
    }

    // ---------- walkpgdir ----------

    /** The table that translates page v, or None. With alloc it is None only when memory ran out. */
    method WalkPgdir(d: nat, v: nat, alloc: bool) returns (t: Option<nat>)
      requires Linked() && Space(View(), d) && v < VPAGES
      modifies this
      ensures Linked() && Space(View(), d) && first == old(first)
      ensures SameHas(old(View()), View(), d) && SameLeaves(old(View()), View(), d) && Kept(old(View()), View(), d)
      ensures t == None ==> View() == old(View()) && !Entry(View(), d, v / NPTENTRIES).present && (alloc ==> free == [])
      ensures t.Some? ==> HasTable(View(), d, v) && t.value == Entry(View(), d, v / NPTENTRIES).frame
      ensures t.Some? ==> Spent(old(View()), View(), d, v, v + 1, 0)
      ensures !alloc ==> View() == old(View())
    {
      DirIsTable(View(), d);
      OneTable(View(), d, v);
      var i := v / NPTENTRIES;
      if page[d].e[i].present {
        return Some(page[d].e[i].frame);
      }
      if !alloc {
        return None;
      }
      ghost var m := View();
      if free != [] { WithTableOk(m, d, i); WithTableEntries(m, d, i); WithTableKept(m, d, i); }
      t := Kalloc(ZeroTable());
      if t.Some? {
        page := page[d := Table(page[d].e[i := Pte(t.value, true, PTE_W + PTE_U)])];
      }
    }

    // ---------- mappages ----------

    // One round of the loop of mappages.
    method MapOne(d: nat, v: nat, frame: nat, perm: nat) returns (ok: bool)
      requires Linked() && Space(View(), d) && v < VPAGES && !Leaf(View(), d, v).present
      requires v < USERPAGES ==> Loose(View(), d, frame)
      modifies this
      ensures Linked() && Space(View(), d) && first == old(first) && (!ok ==> free == [] && View() == old(View()))
      ensures MapsOne(old(View()), View(), d, v, Pte(frame, true, perm), ok)
      ensures if ok then Spent(old(View()), View(), d, v, v + 1, 0) else |Missing(View(), d, v, v + 1)| == 1
    {
      hide Space, Has, Owns, SameHas, SameLeaves, Kept, Missing;
      ghost var m := View();
      var t := WalkPgdir(d, v, true);
      if t == None {
        NothingMapped(m, d, v, Pte(frame, true, perm));
        OneTable(m, d, v);
        return false;
      }
      ghost var m1 := View();
      TabIsTable(m1, d, v / NPTENTRIES);
      page := page[t.value := Table(page[t.value].e[v % NPTENTRIES := Pte(frame, true, perm)])];
      MapAfterWalk(m, m1, d, v, Pte(frame, true, perm));
      ok := true;
    }

    /** Map pages v, v + 1, ... to frames from `frame` on. Stops when a table cannot be allocated;
        k is how many pages it has mapped. A mapped page is a panic, hence the precondition. */
    method MapPages(d: nat, v: nat, n: nat, frame: nat, perm: nat) returns (ok: bool, k: nat)
      requires Linked() && Space(View(), d) && 0 < n && v + n <= VPAGES
      requires forall w :: v <= w < v + n ==> !Leaf(View(), d, w).present
      requires InHand(View(), d, v, n, frame)
      modifies this
      ensures Linked() && Space(View(), d) && first == old(first)
      ensures k <= n && (ok <==> k == n) && (!ok ==> free == [])
      ensures Maps(old(View()), View(), d, v, k, frame, perm)
      ensures ok <==> |old(free)| >= |Missing(old(View()), d, v, v + n)|
      ensures ok ==> Spent(old(View()), View(), d, v, v + n, 0)
    {
      hide Space, Has, Owns, Kept, Missing, Spent, Loose;
      ghost var m := View();
      k := 0;
      NoneMapped(m, d, v, frame, perm);
      SpentNone(m, d, v);
      while k < n
        invariant 0 <= k <= n && Linked() && Space(View(), d) && first == m.first
        invariant Maps(m, View(), d, v, k, frame, perm) && Spent(m, View(), d, v, v + k, 0)
      {
        ghost var m1 := View();
        if v + k < USERPAGES { StillLoose(m, m1, d, v, k, frame, perm); }
        ok := MapOne(d, v + k, frame + k, perm);
        if !ok {
          TooFew(m, m1, d, v, v + k, v + n);
          return false, k;
        }
        MapsMore(m, m1, View(), d, v, k, frame, perm);
        SpentMore(m, m1, View(), d, v, v + k, 0, 0);
        k := k + 1;
      }
      SpentAll(m, View(), d, v, v + n);
      ok := true;
    }

    // ---------- deallocuvm ----------

    // The other branches of the loop body of deallocuvm, with the table of page a at hand.
    method FreePage(d: nat, a: nat, t: nat)
      requires Linked() && HasTable(View(), d, a) && a < USERPAGES && t == Entry(View(), d, a / NPTENTRIES).frame
      modifies this
      ensures Linked() && first == old(first)
      ensures View() == if Leaf(old(View()), d, a).present then Unmapped(old(View()), d, a) else old(View())
    {
      TabIsTable(View(), d, a / NPTENTRIES);
      var pte := page[t].e[a % NPTENTRIES];
      if pte.present {
        UnmappedEntries(View(), d, a);
        UnmappedOk(View(), d, a);
        Kfree(pte.frame);
        page := page[t := Table(page[t].e[a % NPTENTRIES := NONE])];
      }
    }

    /** deallocuvm: the pages from PGROUNDUP(newsz) up to oldsz are freed and unmapped. A missing
        table lets the loop jump to the next directory entry. */
    method DeallocUvm(d: nat, oldsz: nat, newsz: nat) returns (r: nat)
      requires Linked() && Space(View(), d) && oldsz <= KERNBASE
      modifies this
      ensures Linked() && Space(View(), d) && first == old(first)
      ensures r == if newsz >= oldsz then oldsz else newsz
      ensures Dealloced(old(View()), View(), d, Pages(newsz), Pages(oldsz))
      ensures View() == Swept(old(View()), d, Pages(newsz), Pages(oldsz))
    {
      hide Space, Has, Owns, Dealloced, Pages, Kept, SameHas, SameLeaves, Pool, Unmapped, Swept;
      ghost var m := View();
      ghost var lo, hi := Pages(newsz), Pages(oldsz);
      NoneDealloced(m, d, lo);
      PagesOrder(newsz, oldsz);
      PagesOrder(oldsz, newsz);
      if newsz >= oldsz {
        NoneDealloced(m, d, hi);
        EmptyRange(m, d, lo, hi);
        SweptNone(m, d, lo, hi);
        return oldsz;
      }
      var a := Pages(newsz);
      while a < Pages(oldsz)
        invariant lo <= a && Linked() && Space(View(), d) && first == m.first
        invariant Dealloced(m, View(), d, lo, if a < hi then a else hi)
        invariant Swept(View(), d, a, hi) == Swept(m, d, lo, hi)
        decreases hi - a
      {
        ghost var m1 := View();
        var t := WalkPgdir(d, a, false);
        if t == None {
          var b := (a / NPTENTRIES + 1) * NPTENTRIES;
          NoTableNoPages(m1, d, a, b);
          SweptSkip(m1, d, a, b, hi);
          DeallocSkip(m, m1, d, lo, a, if b < hi then b else hi);
          a := b;
        } else {
          SweptStep(m1, d, a, hi);
          if Leaf(m1, d, a).present {
            UnmappedOk(m1, d, a);
            DeallocStep(m, m1, d, lo, a);
          } else {
            DeallocSkip(m, m1, d, lo, a, a + 1);
          }
          FreePage(d, a, t.value);
          a := a + 1;
        }
      }
      SweptNone(View(), d, a, hi);
      r := newsz;
    }

    // ---------- freevm ----------

    /** freevm: every user page, every table and the directory go to the free list, each once (the
        list has no duplicates), and nothing else changes. */
    method FreeVm(d: nat)
      requires Linked() && Space(View(), d)
      modifies this
      ensures Linked() && first == old(first)
      ensures forall f :: f in free <==> Has(old(View()), d, f)
      ensures forall f :: Has(old(View()), d, f) || Still(old(View()), View(), f)
    {
      hide Swept;
      ghost var m := View();
      var _ := DeallocUvm(d, KERNBASE, 0);
      ghost var m1 := View();
      assert Pages(0) == 0 && Pages(KERNBASE) == USERPAGES;
      DirIsTable(m1, d);
      NoUserPages(m, m1, d);
      FreeTables(d);
      OwnsNoPages(m1, d);
      hide Owns, Dealloced;
      Kfree(d);
      forall f ensures Has(m, d, f) || Still(m, View(), f) {
        assert Has(m, d, f) || Still(m, m1, f) by { DeallocStill(m, m1, d, f); }
        assert Has(m1, d, f) || Still(m1, View(), f);
        assert Has(m1, d, f) <==> Has(m, d, f) by { DeallocStill(m, m1, d, f); }
      }
      forall f ensures f in free <==> Has(m, d, f) {
        DeallocStill(m, m1, d, f);
      }
    }

    // The loop of freevm over the directory.
    method FreeTables(d: nat)
      requires Linked() && Space(View(), d)
      modifies this
      ensures Linked() && first == old(first) && d in page && d !in free
      ensures forall f :: f in free <==> f in old(free) || TableOf(old(View()), d, NPTENTRIES, f)
      ensures forall f :: f == d || TableOf(old(View()), d, NPTENTRIES, f) || Still(old(View()), View(), f)
    {
      ghost var m := View();
      DirIsTable(m, d);
      var i := 0;
      while i < NPTENTRIES
        invariant 0 <= i <= NPTENTRIES && Linked() && first == m.first && d in page && page[d] == m.page[d] && d !in free
        invariant forall f :: f in free <==> f in m.free || TableOf(m, d, i, f)
        invariant forall f :: TableOf(m, d, i, f) || Still(m, View(), f)
      {
        TableOfNext(m, d, i);
        if page[d].e[i].present {
          var t := page[d].e[i].frame;
          NotYetFreed(m, d, i);
          Kfree(t);
        }
        i := i + 1;
      }
    }

    // ---------- setupkvm ----------

    /** setupkvm: a directory with the kernel's mappings and no user page, all made of free frames.
        On failure every frame is back on the free list. `data` is the page of the symbol data. */
    method SetupKvm(data: nat) returns (r: Option<nat>)
      requires Linked() && KERNLINK < data < KERNTOP
      modifies this
      ensures Linked() && first == old(first)
      ensures forall f :: f !in old(free) ==> Still(old(View()), View(), f)
      ensures r == None ==> forall f :: f in free <==> f in old(free)
      ensures r.Some? ==> Space(View(), r.value) && (forall f :: Has(View(), r.value, f) <==> f in old(free))
      ensures r.Some? ==> forall w: nat :: w < VPAGES ==> Leaf(View(), r.value, w) == KernelPte(data, w)
      ensures r == None <==> |old(free)| < KERNELFRAMES
      ensures r.Some? ==> |free| + KERNELFRAMES == |old(free)| && Tabled(View(), r.value, KernelTables(data, 4))
    {
      hide Space, Has, Owns, Leaf, Missing, Spent, KernelTables, Tabled, Maps, Kept, Kmap, KernelPte, Pool, KernelSoFar;
      KernelTableCount(data);
      ghost var m := View();
      r := Kalloc(ZeroTable());
      if r == None { return; }
      var d := r.value;
      NewDir(m, d, data);
      var k := 0;
      while k < 4
        invariant 0 <= k <= 4 && Linked() && Space(View(), d) && first == m.first && KernelSoFar(m, View(), d, data, k)
      {
        ghost var m1 := View();
        KernelRow(m, m1, d, data, k);
        var range := Kmap(data)[k];
        var ok, n := MapPages(d, range.virt, range.n, range.phys, range.perm);
        if !ok {
          ghost var m2 := View();
          KernelFails(m, m1, m2, d, data, k, n);
          FreeVm(d);
          FreedAll(m, m2, View(), d);
          return None;
        }
        KernelNext(m, m1, View(), d, data, k);
        k := k + 1;
      }
      KernelDone(m, View(), d, data);
    }

    // ---------- allocuvm ----------

    /** allocuvm: all or nothing. Either every page from PGROUNDUP(oldsz) up to newsz is mapped to a
        fresh zeroed frame, or the user's mappings are what they were and the frames are back. A page
        already mapped there would be a panic. */
    method AllocUvm(d: nat, oldsz: nat, newsz: nat) returns (r: nat)
      requires Linked() && Space(View(), d)
      requires newsz < KERNBASE ==> forall v :: Pages(oldsz) <= v < Pages(newsz) ==> !Leaf(View(), d, v).present
      modifies this
      ensures Linked() && Space(View(), d) && first == old(first)
      ensures newsz >= KERNBASE ==> r == 0 && View() == old(View())
      ensures newsz < oldsz && newsz < KERNBASE ==> r == oldsz && View() == old(View())
      ensures oldsz <= newsz < KERNBASE ==>
        || (r == newsz && Grown(old(View()), View(), d, Pages(oldsz), Pages(newsz), {}))
        || (r == 0 && Restored(old(View()), View(), d, {}))
      ensures oldsz <= newsz < KERNBASE && 0 < newsz ==>
        (r == 0 <==> |old(free)| < Pages(newsz) - Pages(oldsz) + |Missing(old(View()), d, Pages(oldsz), Pages(newsz))|)
    {
      hide Space, Has, Owns, Leaf, Pages, Loose, Dealloced, Kept, SameLeaves, SameHas, Missing, Spent, Grown, Restored;
      if newsz >= KERNBASE { return 0; }
      if newsz < oldsz { return oldsz; }
      PagesOrder(oldsz, newsz);
      ghost var m := View();
      ghost var lo := Pages(oldsz);
      var a := Pages(oldsz);
      NothingGrown(m, d, lo);
      SpentNone(m, d, lo);
      while a < Pages(newsz)
        invariant lo <= a <= Pages(newsz) && Linked() && Space(View(), d) && first == m.first
        invariant Grown(m, View(), d, lo, a, {}) && Spent(m, View(), d, lo, a, a - lo)
      {
        ghost var m1 := View();
        var ok := GrowOne(d, a, oldsz, newsz, m);
        if !ok {
          GrowthFails(m, m1, d, lo, a, Pages(newsz));
          return 0;
        }
        SpentMore(m, m1, View(), d, lo, a, a - lo, 1);
        a := a + 1;
      }
      GrowthFits(m, View(), d, lo, a);
      r := newsz;
    }

    // One round of the loop of allocuvm, with its two error exits; m is the memory at the call.
    method GrowOne(d: nat, a: nat, oldsz: nat, newsz: nat, ghost m: Mem) returns (ok: bool)
      requires Linked() && Space(View(), d) && newsz < KERNBASE && Pages(oldsz) <= a < Pages(newsz)
      requires first == m.first && Space(m, d) && Grown(m, View(), d, Pages(oldsz), a, {})
      requires forall v :: Pages(oldsz) <= v < Pages(newsz) ==> !Leaf(m, d, v).present
      modifies this
      ensures Linked() && Space(View(), d) && first == m.first
      ensures if ok then Grown(m, View(), d, Pages(oldsz), a + 1, {}) else Restored(m, View(), d, {})
      ensures if ok then Spent(old(View()), View(), d, a, a + 1, 1) else |old(free)| < 1 + |Missing(old(View()), d, a, a + 1)|
    {
      hide Space, Has, Owns, Leaf, Pages, Loose, Dealloced, Kept, SameLeaves, SameHas, Restored, Missing, Spent, Grown, Maps, Pool, Still;
      ghost var lo, hi := Pages(oldsz), Pages(newsz);
      PagesOrder(oldsz, newsz);
      ghost var m1 := View();
      if free != [] { TakeLoose(m1, d, ZeroBytes()); GrownTake(m, m1, d, lo, a); }
      var mem := Kalloc(ZeroBytes());
      if mem == None {
        var _ := DeallocUvm(d, newsz, oldsz);
        Rollback(m, m1, View(), d, lo, a, hi, {});
        return false;
      }
      ghost var m2 := View();
      assert !Leaf(m, d, a).present;
      var done, k := MapPages(d, a, 1, mem.value, PTE_W + PTE_U);
      ghost var m3 := View();
      SpentPage(m1, m2, m3, d, a);
      if done {
        GrownMap(m, m2, m3, d, lo, a, mem.value);
        return true;
      }
      MapFailed(m, m2, m3, d, lo, a, mem.value);
      var _ := DeallocUvm(d, newsz, oldsz);
      ghost var m4 := View();
      Rollback(m, m3, m4, d, lo, a, hi, {mem.value});
      GiveBack(m, m4, d, mem.value);
      Kfree(mem.value);
      ok := false;
    }

    // ---------- copyuvm ----------

    /** copyuvm: a child that has the parent's pages below sz, with the same flags and bytes, on frames
        of its own. If memory runs out, every frame taken is back on the free list. Nothing that was
        not free changes. A page missing below sz would be a panic. */
    method CopyUvm(d: nat, sz: nat, data: nat) returns (r: Option<nat>)
      requires Linked() && Space(View(), d) && sz <= KERNBASE && KERNLINK < data < KERNTOP
      requires forall v :: 0 <= v < Pages(sz) ==> Leaf(View(), d, v).present
      modifies this
      ensures Linked() && first == old(first)
      ensures forall f :: f !in old(free) ==> Still(old(View()), View(), f)
      ensures Space(View(), d) && SameLeaves(old(View()), View(), d)
      ensures r == None ==> forall f :: f in free <==> f in old(free)
      ensures r.Some? ==> Space(View(), r.value) && Copied(old(View()), View(), d, r.value, Pages(sz), data)
      ensures r.Some? ==> forall f :: Owns(View(), r.value, f) ==> !Owns(View(), d, f)
      ensures r == None <==> |old(free)| < KERNELFRAMES + Pages(sz) + UserTables(Pages(sz))
    {
      hide Space, Has, Owns, Leaf, Pages, SameLeaves, Copied, Missing, Spent, Tabled, KernelTables, UserTables, Still, KernelPte, Pool;
      ghost var m := View();
      r := SetupKvm(data);
      SpaceKept(m, View(), d);
      if r == None { return; }
      PagesOrder(sz, sz);
      var c, i := r.value, 0;
      NothingCopied(m, View(), d, c, data);
      ghost var s := View();
      SpentNone(s, c, 0);
      ChildMissing(s, c, data, Pages(sz));
      while i < Pages(sz)
        invariant 0 <= i <= Pages(sz) && Linked() && Space(View(), c) && first == m.first && Spent(s, View(), c, 0, i, i)
        invariant (forall f :: f !in m.free ==> Still(m, View(), f)) && Copied(m, View(), d, c, i, data)
      {
        ghost var m1 := View();
        var ok := CopyPage(d, c, i, data, m);
        if !ok {
          GrowthFails(s, m1, c, 0, i, Pages(sz));
          ghost var m2 := View();
          FreeVm(c);
          FreedAll(m, m2, View(), c);
          SpaceKept(m, View(), d);
          return None;
        }
        SpentMore(s, m1, View(), c, 0, i, i, 1);
        i := i + 1;
      }
      GrowthFits(s, View(), c, 0, i);
      SpaceKept(m, View(), d);
      Apart(m, View(), d, c, i, data);
    }

    // One round of the loop of copyuvm; on failure the frame in hand is given back.
    method CopyPage(d: nat, c: nat, i: nat, data: nat, ghost m: Mem) returns (ok: bool)
      requires Linked() && Space(m, d) && Space(View(), c) && first == m.first && i < USERPAGES && Leaf(m, d, i).present
      requires (forall f :: f !in m.free ==> Still(m, View(), f)) && Copied(m, View(), d, c, i, data)
      modifies this
      ensures Linked() && Space(View(), c) && first == m.first && (forall f :: f !in m.free ==> Still(m, View(), f))
      ensures if ok then Copied(m, View(), d, c, i + 1, data) else forall f :: Has(View(), c, f) <==> f in m.free
      ensures if ok then Spent(old(View()), View(), c, i, i + 1, 1) else |old(free)| < 1 + |Missing(old(View()), c, i, i + 1)|
    {
      hide Space, Has, Owns, SameLeaves, Kept, SameHas, Loose, Copied, Maps, Missing, Spent;
      ghost var m1 := View();
      SpaceKept(m, m1, d);
      ParentPage(m, m1, d, i);
      CopiedHas(m, m1, d, c, i, data);
      var t := WalkPgdir(d, i, false);
      TabIsTable(m1, d, i / NPTENTRIES);
      var pte := page[t.value].e[i % NPTENTRIES];
      ghost var p := page[pte.frame];
      if free != [] { TakeLoose(m1, c, p); }
      var mem := Kalloc(page[pte.frame]);
      if mem == None { return false; }
      ghost var m2, g := View(), mem.value;
      CopyTake(m, m1, d, c, i, data, p);
      NotPresent(m, m2, d, c, i, data, g);
      var k;
      ok, k := MapPages(c, i, 1, mem.value, pte.perm);
      ghost var m3 := View();
      CopyMapped(m, m2, m3, d, c, i, data, g, k);
      SpentPage(m1, m2, m3, c, i);
      if !ok {
        HandBack(m, m2, m3, c, g);
        Kfree(mem.value);
      }
    }
  }

  // ---------- what copyuvm does ----------

  ghost predicate SamePageAs(m: Mem, m': Mem, p: Pte, c: Pte) {
    && c.present && c.perm == p.perm && c.frame in m'.page && c.frame !in m'.free
    && p.frame in m.page && m.page[p.frame].Bytes? && m'.page[c.frame] == m.page[p.frame]
  }

  /** c has copies of the first n pages of d, no other user page, and the kernel's mappings; its frames
      and the free ones are the frames that were free. */
  ghost predicate Copied(m: Mem, m': Mem, d: nat, c: nat, n: nat, data: nat) {
    && (forall w: nat :: w < n ==> SamePageAs(m, m', Leaf(m, d, w), Leaf(m', c, w)))
    && (forall w: nat :: n <= w < VPAGES ==> Leaf(m', c, w) == KernelPte(data, w))
    && (forall f :: Has(m', c, f) <==> f in m.free)
  }

  // The same with a free frame g in the caller's hands, which already holds the copy of page n.
  ghost predicate Copying(m: Mem, m': Mem, d: nat, c: nat, n: nat, data: nat, g: nat) {
    && (forall w: nat :: w < n ==> SamePageAs(m, m', Leaf(m, d, w), Leaf(m', c, w)))
    && (forall w: nat :: n <= w < VPAGES ==> Leaf(m', c, w) == KernelPte(data, w))
    && (forall f :: Has(m', c, f) <==> f in m.free && f != g)
    && g in m.free && Loose(m', c, g)
    && Leaf(m, d, n).frame in m.page && m'.page[g] == m.page[Leaf(m, d, n).frame]
  }

  lemma NothingCopied(m: Mem, m': Mem, d: nat, c: nat, data: nat)
    requires forall w: nat :: w < VPAGES ==> Leaf(m', c, w) == KernelPte(data, w)
    requires forall f :: Has(m', c, f) <==> f in m.free
    ensures Copied(m, m', d, c, 0, data)
  {
  }

  // Only free frames have changed, so the parent is what it was.
  lemma SpaceKept(m: Mem, m': Mem, d: nat)
    requires Space(m, d) && Pool(m') && m'.first == m.first && forall f :: f !in m.free ==> Still(m, m', f)
    ensures Space(m', d) && SameLeaves(m, m', d) && (forall f :: Owns(m', d, f) <==> Owns(m, d, f))
  {
    OwnedNotFree(m, d);
    SpaceStill(m, m', d);
  }

  lemma ParentPage(m: Mem, m1: Mem, d: nat, i: nat)
    requires Space(m, d) && i < USERPAGES && Leaf(m, d, i).present && SameLeaves(m, m1, d)
    requires forall f :: f !in m.free ==> Still(m, m1, f)
    ensures var f := Leaf(m, d, i).frame;
      f in m.page && f in m1.page && m1.page[f] == m.page[f] && m.page[f].Bytes? && |m.page[f].bytes| == PGSIZE && f !in m1.free
    ensures Leaf(m1, d, i) == Leaf(m, d, i) && Entry(m1, d, i / NPTENTRIES).present
  {
    assert Live(m, d, User(i)) && KindOk(m, FrameAt(m, d, User(i)), User(i));
    assert Still(m, m1, Leaf(m, d, i).frame);
  }

  lemma CopiedHas(m: Mem, m1: Mem, d: nat, c: nat, i: nat, data: nat)
    requires Copied(m, m1, d, c, i, data)
    ensures forall f :: Has(m1, c, f) <==> f in m.free
  {
  }

  lemma CopyTake(m: Mem, m1: Mem, d: nat, c: nat, i: nat, data: nat, p: Page)
    requires Copied(m, m1, d, c, i, data) && Space(m1, c) && m1.free != [] && p.Bytes? && |p.bytes| == PGSIZE
    requires Leaf(m, d, i).frame in m.page && m.page[Leaf(m, d, i).frame] == p && i <= USERPAGES
    requires forall f :: f !in m.free ==> Still(m, m1, f)
    ensures Copying(m, Taken(m1, p), d, c, i, data, m1.free[0])
    ensures forall f :: f !in m.free ==> Still(m, Taken(m1, p), f)
  {
    var m2 := Taken(m1, p);
    TakeLoose(m1, c, p);
    GrownStill(m, m1, m2, c);
    hide Space, Has, Owns, Leaf, Loose;
    forall w: nat | w < i ensures SamePageAs(m, m2, Leaf(m, d, w), Leaf(m2, c, w)) {
      assert SamePageAs(m, m1, Leaf(m, d, w), Leaf(m1, c, w)) && Leaf(m2, c, w) == Leaf(m1, c, w);
      assert Still(m1, m2, Leaf(m1, c, w).frame);
    }
  }

  lemma NotPresent(m: Mem, m2: Mem, d: nat, c: nat, i: nat, data: nat, g: nat)
    requires Copying(m, m2, d, c, i, data, g) && i < USERPAGES
    ensures !Leaf(m2, c, i).present && Loose(m2, c, g)
  {
    hide Leaf, Has;
  }

  lemma CopyMapped(m: Mem, m2: Mem, m3: Mem, d: nat, c: nat, i: nat, data: nat, g: nat, k: nat)
    requires Copying(m, m2, d, c, i, data, g) && i < USERPAGES && k <= 1 && m3.first == m2.first
    requires Maps(m2, m3, c, i, k, g, Leaf(m, d, i).perm) && forall f :: f !in m.free ==> Still(m, m2, f)
    requires m.page[Leaf(m, d, i).frame].Bytes?
    ensures k == 1 ==> Copied(m, m3, d, c, i + 1, data)
    ensures k == 0 ==> (forall f :: Has(m3, c, f) <==> f in m.free && f != g) && Loose(m3, c, g)
    ensures forall f :: f !in m.free ==> Still(m, m3, f)
  {
    hide Leaf, Owns;
    assert Still(m2, m3, g);
    forall f | f !in m.free ensures Still(m, m3, f) {
      assert !Has(m2, c, f) && Still(m, m2, f) && Still(m2, m3, f);
    }
    forall w: nat | w < i ensures SamePageAs(m, m3, Leaf(m, d, w), Leaf(m3, c, w)) {
      assert SamePageAs(m, m2, Leaf(m, d, w), Leaf(m2, c, w)) && Leaf(m3, c, w) == Leaf(m2, c, w);
      assert Still(m2, m3, Leaf(m2, c, w).frame);
    }
  }

  lemma HandBack(m: Mem, m2: Mem, m3: Mem, c: nat, g: nat)
    requires Space(m3, c) && Loose(m3, c, g) && g in m.free && (forall f :: Has(m3, c, f) <==> f in m.free && f != g)
    requires forall f :: f !in m.free ==> Still(m, m3, f)
    ensures g !in m3.free && Space(Freed(m3, g), c) && (forall f :: Has(Freed(m3, g), c, f) <==> f in m.free)
    ensures forall f :: f !in m.free ==> Still(m, Freed(m3, g), f)
  {
    var m4 := Freed(m3, g);
    FreedPool(m3, g);
    SpaceStill(m3, m4, c);
  }

  // Tables for n user pages of an address space that has none.
  function UserTables(n: nat): nat {
    (n + 1023) / 1024
  }

  lemma ChildMissing(m: Mem, c: nat, data: nat, n: nat)
    requires Tabled(m, c, KernelTables(data, 4)) && n <= USERPAGES
    ensures |Missing(m, c, 0, n)| == UserTables(n)
  {
    assert forall i: nat :: i < NPTENTRIES && i * NPTENTRIES < n ==> !Entry(m, c, i).present;
    assert Missing(m, c, 0, n) == Interval(0, UserTables(n));
  }

  lemma Apart(m: Mem, m': Mem, d: nat, c: nat, n: nat, data: nat)
    requires Space(m, d) && Space(m', c) && Copied(m, m', d, c, n, data) && (forall f :: Owns(m', d, f) <==> Owns(m, d, f))
    ensures forall f :: Owns(m', c, f) ==> !Owns(m', d, f)
  {
    OwnedNotFree(m, d);
    hide Owns, Space;
    assert forall f :: Owns(m', c, f) ==> Has(m', c, f);
  }

  // ---------- what allocuvm does ----------

  /** Pages lo..hi are mapped, writable and zero; every other page, and all data, is as before. The
      frames come from the free list; `lost` are free frames that the caller still holds. */
  ghost predicate Grown(m: Mem, m': Mem, d: nat, lo: nat, hi: nat, lost: set<nat>) {
    && (forall w: nat :: w < VPAGES && !(lo <= w < hi) ==> Leaf(m', d, w) == Leaf(m, d, w))
    && (forall w: nat :: lo <= w < hi ==> NewPage(m', Leaf(m', d, w)))
    && (forall f :: Has(m', d, f) <==> Has(m, d, f) && f !in lost)
    && Kept(m, m', d)
  }

  ghost predicate NewPage(m: Mem, pte: Pte) {
    pte.present && pte.perm == PTE_W + PTE_U && pte.frame in m.page && m.page[pte.frame] == ZeroBytes() && pte.frame !in m.free
  }

  /** The same pages are mapped to the same frames with the same contents, and no frame is missing. */
  ghost predicate Restored(m: Mem, m': Mem, d: nat, lost: set<nat>) {
    && (forall w: nat :: w < VPAGES ==> Leaf(m', d, w).present == Leaf(m, d, w).present)
    && (forall w: nat :: w < VPAGES && Leaf(m, d, w).present ==> Leaf(m', d, w) == Leaf(m, d, w))
    && (forall w: nat :: w < USERPAGES && Leaf(m, d, w).present ==> Still(m, m', Leaf(m, d, w).frame))
    && (forall f :: Has(m', d, f) <==> Has(m, d, f) && f !in lost)
    && (forall f :: !Owns(m, d, f) ==> Still(m, m', f))
  }

  /** When allocuvm fails, a frame that was free is free again or is a new page table. */
  lemma OnlyTablesRemain(m: Mem, m': Mem, d: nat, f: nat)
    requires Space(m, d) && Restored(m, m', d, {}) && f in m.free && f !in m'.free
    ensures exists i: nat :: i < NPTENTRIES && Entry(m', d, i) == Pte(f, true, Entry(m', d, i).perm)
  {
    assert Owns(m', d, f) by { hide Owns, Leaf, Space; assert Has(m', d, f); }
    NotAUserPage(m, m', d, f);
    hide Leaf, Space, Restored;
    var s :| Live(m', d, s) && FrameAt(m', d, s) == f;
    assert s.Tab?;
  }

  lemma NotAUserPage(m: Mem, m': Mem, d: nat, f: nat)
    requires Space(m, d) && Restored(m, m', d, {}) && f in m.free
    ensures f != d && forall v: nat :: v < USERPAGES && Leaf(m', d, v).present ==> Leaf(m', d, v).frame != f
  {
    OwnedNotFree(m, d);
    hide Leaf, Space, Has;
    assert Live(m, d, Dir) && FrameAt(m, d, Dir) == d;
    assert Owns(m, d, d);
    forall v: nat | v < USERPAGES && Leaf(m', d, v).present ensures Leaf(m', d, v).frame != f {
      assert Live(m, d, User(v)) && FrameAt(m, d, User(v)) == Leaf(m', d, v).frame;
      assert Owns(m, d, Leaf(m', d, v).frame);
    }
  }

  lemma NothingGrown(m: Mem, d: nat, lo: nat)
    ensures Grown(m, m, d, lo, lo, {})
  {
  }

  lemma OwnedNotFree(m: Mem, d: nat)
    requires Space(m, d)
    ensures forall f :: Owns(m, d, f) ==> f in m.page && f !in m.free
  {
    forall f | Owns(m, d, f) ensures f in m.page && f !in m.free {
      var s :| Live(m, d, s) && FrameAt(m, d, s) == f;
      assert KindOk(m, f, s);
    }
  }

  // kalloc hands out a frame that belongs to nobody.
  lemma TakeLoose(m: Mem, d: nat, p: Page)
    requires Space(m, d) && m.free != [] && p.Bytes? && |p.bytes| == PGSIZE
    ensures var m', g := Taken(m, p), m.free[0];
      && Space(m', d) && Loose(m', d, g) && SameLeaves(m, m', d) && Kept(m, m', d) && m'.page[g] == p
      && Has(m, d, g) && (forall f :: Has(m', d, f) <==> Has(m, d, f) && f != g)
      && (forall i: nat :: Entry(m', d, i) == Entry(m, d, i))
  {
    var m' := Taken(m, p);
    TakenPool(m, p);
    forall f | Owns(m, d, f) ensures Still(m, m', f) { }
    SpaceStill(m, m', d);
    OwnedNotFree(m, d);
  }

  lemma GrownTake(m: Mem, m1: Mem, d: nat, lo: nat, a: nat)
    requires Grown(m, m1, d, lo, a, {}) && Space(m1, d) && m1.free != [] && a <= USERPAGES
    ensures Grown(m, Taken(m1, ZeroBytes()), d, lo, a, {m1.free[0]}) && Has(m, d, m1.free[0])
    ensures Leaf(Taken(m1, ZeroBytes()), d, a) == Leaf(m, d, a)
  {
    var m2 := Taken(m1, ZeroBytes());
    TakeLoose(m1, d, ZeroBytes());
    hide Space, Has, Owns, Leaf;
    KeptTrans(m, m1, m2, d);
    forall w: nat | lo <= w < a ensures NewPage(m2, Leaf(m2, d, w)) {
      assert NewPage(m1, Leaf(m1, d, w)) && Leaf(m2, d, w) == Leaf(m1, d, w);
    }
  }

  lemma GrownMap(m: Mem, m2: Mem, m3: Mem, d: nat, lo: nat, a: nat, g: nat)
    requires Grown(m, m2, d, lo, a, {g}) && Maps(m2, m3, d, a, 1, g, PTE_W + PTE_U) && lo <= a < USERPAGES
    requires Loose(m2, d, g) && m2.page[g] == ZeroBytes() && Has(m, d, g)
    ensures Grown(m, m3, d, lo, a + 1, {})
  {
    hide Leaf, Owns;
    KeptTrans(m, m2, m3, d);
    assert Still(m2, m3, g);
    forall w: nat | lo <= w < a + 1 ensures NewPage(m3, Leaf(m3, d, w)) {
      if w < a {
        assert NewPage(m2, Leaf(m2, d, w)) && Leaf(m3, d, w) == Leaf(m2, d, w);
        assert Still(m2, m3, Leaf(m2, d, w).frame);
      }
    }
  }

  lemma MapFailed(m: Mem, m2: Mem, m3: Mem, d: nat, lo: nat, a: nat, g: nat)
    requires Grown(m, m2, d, lo, a, {g}) && Maps(m2, m3, d, a, 0, g, PTE_W + PTE_U) && a <= USERPAGES
    requires Loose(m2, d, g) && m3.first == m2.first
    ensures Grown(m, m3, d, lo, a, {g}) && Managed(m3, g)
  {
    hide Leaf, Owns;
    KeptTrans(m, m2, m3, d);
    forall w: nat | lo <= w < a ensures NewPage(m3, Leaf(m3, d, w)) {
      assert NewPage(m2, Leaf(m2, d, w)) && Leaf(m3, d, w) == Leaf(m2, d, w);
      assert Still(m2, m3, Leaf(m2, d, w).frame);
    }
  }

  // deallocuvm on the error path undoes exactly the growth.
  lemma Rollback(m: Mem, m1: Mem, m2: Mem, d: nat, lo: nat, a: nat, hi: nat, lost: set<nat>)
    requires Grown(m, m1, d, lo, a, lost) && Dealloced(m1, m2, d, lo, hi) && a <= hi <= USERPAGES
    requires forall v :: lo <= v < hi ==> !Leaf(m, d, v).present
    requires Space(m, d)
    ensures Restored(m, m2, d, lost)
  {
    RollbackLeaves(m, m1, m2, d, lo, a, hi, lost);
    forall f | !Owns(m, d, f) ensures Still(m, m2, f) {
      assert Still(m, m1, f);
      if f !in m.free {
        assert !Has(m1, d, f);
        assert Still(m1, m2, f);
      }
    }
    hide Owns, Leaf;
    forall f ensures Has(m2, d, f) <==> Has(m, d, f) && f !in lost {
      assert Has(m2, d, f) <==> Has(m1, d, f);
    }
  }

  lemma RollbackLeaves(m: Mem, m1: Mem, m2: Mem, d: nat, lo: nat, a: nat, hi: nat, lost: set<nat>)
    requires Grown(m, m1, d, lo, a, lost) && Dealloced(m1, m2, d, lo, hi) && a <= hi <= USERPAGES
    requires forall v :: lo <= v < hi ==> !Leaf(m, d, v).present
    requires Space(m, d)
    ensures forall w: nat :: w < VPAGES ==> Leaf(m2, d, w).present == Leaf(m, d, w).present
    ensures forall w: nat :: w < VPAGES && Leaf(m, d, w).present ==> Leaf(m2, d, w) == Leaf(m, d, w)
    ensures forall w: nat :: w < USERPAGES && Leaf(m, d, w).present ==> Still(m, m2, Leaf(m, d, w).frame)
  {
    hide Leaf, Owns, Has, SameHas;
    forall w: nat | w < VPAGES
      ensures Leaf(m2, d, w).present == Leaf(m, d, w).present
      ensures Leaf(m, d, w).present ==> Leaf(m2, d, w) == Leaf(m, d, w)
    {
      assert NewPage(m1, Leaf(m1, d, w)) || !(lo <= w < a);
    }
    forall w: nat | w < USERPAGES && Leaf(m, d, w).present ensures Still(m, m2, Leaf(m, d, w).frame) {
      var f := Leaf(m, d, w).frame;
      assert Live(m, d, User(w)) && KindOk(m, FrameAt(m, d, User(w)), User(w));
      assert Still(m, m1, f) && Still(m1, m2, f);
    }
  }

  lemma GrowthFails(m: Mem, m1: Mem, d: nat, lo: nat, a: nat, hi: nat)
    requires lo <= a < hi && Spent(m, m1, d, lo, a, a - lo) && |m1.free| < 1 + |Missing(m1, d, a, a + 1)|
    ensures |m.free| < hi - lo + |Missing(m, d, lo, hi)|
  {
    MissingMore(m, m1, d, lo, a, hi, a - lo);
    MissingGrows(m1, d, a, a + 1, hi);
  }

  lemma GrowthFits(m: Mem, m1: Mem, d: nat, lo: nat, hi: nat)
    requires lo <= hi && Spent(m, m1, d, lo, hi, hi - lo)
    ensures |m.free| >= hi - lo + |Missing(m, d, lo, hi)|
  {
  }

  // kfree of the frame in hand, on the second error path.
  lemma GiveBack(m: Mem, m4: Mem, d: nat, g: nat)
    requires Restored(m, m4, d, {g}) && Space(m4, d) && Managed(m4, g) && Has(m, d, g) && m4.first == m.first
    ensures g !in m4.free && Space(Freed(m4, g), d) && Restored(m, Freed(m4, g), d, {})
  {
    var m5 := Freed(m4, g);
    assert !Has(m4, d, g);
    FreedPool(m4, g);
    SpaceStill(m4, m5, d);
    forall w: nat | w < USERPAGES && Leaf(m, d, w).present ensures Still(m, m5, Leaf(m, d, w).frame) {
      assert Live(m4, d, User(w)) && FrameAt(m4, d, User(w)) == Leaf(m, d, w).frame;
      assert Owns(m4, d, Leaf(m, d, w).frame);
      assert Still(m, m4, Leaf(m, d, w).frame);
    }
    hide Leaf, Space;
  }

  // ---------- what setupkvm does ----------

  const KERNLINK: nat := 0x80100   // page of KERNBASE + EXTMEM
  const KERNTOP: nat := 0x8E000    // page of KERNBASE + PHYSTOP
  const DEVSPACE: nat := 0xFE000

  datatype Range = Range(virt: nat, phys: nat, n: nat, perm: nat)

  // The table kmap.
  function Kmap(data: nat): seq<Range>
    requires KERNLINK < data < KERNTOP
  {
    [Range(USERPAGES, 0, 256, PTE_W),
     Range(KERNLINK, 256, data - KERNLINK, 0),
     Range(data, data - USERPAGES, KERNTOP - data, PTE_W),
     Range(DEVSPACE, DEVSPACE, VPAGES - DEVSPACE, PTE_W)]
  }

  /** The kernel's view: memory at KERNBASE, with text and read-only data write-protected, and devices
      mapped to themselves. */
  function KernelPte(data: nat, w: nat): Pte {
    if USERPAGES <= w < KERNTOP then Pte(w - USERPAGES, true, if KERNLINK <= w < data then 0 else PTE_W)
    else if w >= DEVSPACE then Pte(w, true, PTE_W)
    else NONE
  }

  // Everything below this page is in place after k rows of kmap.
  function Done(data: nat, k: nat): nat {
    if k == 0 then USERPAGES else if k == 1 then KERNLINK else if k == 2 then data else if k == 3 then KERNTOP else VPAGES
  }

  /** After k rows of kmap: the kernel's mappings so far, made of frames that were free, each accounted for. */
  ghost predicate KernelSoFar(m: Mem, m': Mem, d: nat, data: nat, k: nat) {
    && (forall w: nat :: w < VPAGES ==> Leaf(m', d, w) == if w < Done(data, k) then KernelPte(data, w) else NONE)
    && (forall f :: Has(m', d, f) <==> f in m.free)
    && (forall f :: f !in m.free ==> Still(m, m', f))
    && Tabled(m', d, KernelTables(data, k)) && |m'.free| + 1 + |KernelTables(data, k)| == |m.free|
  }

  lemma NewDir(m: Mem, d: nat, data: nat)
    requires Pool(m) && m.free != [] && d == m.free[0]
    ensures Space(Taken(m, ZeroTable()), d) && KernelSoFar(m, Taken(m, ZeroTable()), d, data, 0)
  {
    var m' := Taken(m, ZeroTable());
    TakenPool(m, ZeroTable());
    assert forall k: nat :: Entry(m', d, k) == NONE;
    assert forall s :: Live(m', d, s) <==> s == Dir;
    assert FrameAt(m', d, Dir) == d;
    assert KindOk(m', d, Dir);
    assert KernelTables(data, 0) == {};
  }

  // What d has comes from m's free list, so growing d leaves the rest of m alone.
  lemma GrownStill(m: Mem, m1: Mem, m2: Mem, d: nat)
    requires (forall f :: Has(m1, d, f) <==> f in m.free) && (forall f :: f !in m.free ==> Still(m, m1, f)) && Kept(m1, m2, d)
    ensures forall f :: f !in m.free ==> Still(m, m2, f)
  {
    forall f | f !in m.free ensures Still(m, m2, f) {
      assert !Has(m1, d, f) && Still(m, m1, f) && Still(m1, m2, f);
    }
  }

  lemma FreedAll(m: Mem, m2: Mem, m3: Mem, d: nat)
    requires (forall f :: Has(m2, d, f) <==> f in m.free) && (forall f :: f !in m.free ==> Still(m, m2, f))
    requires forall f :: f in m3.free <==> Has(m2, d, f)
    requires forall f :: Has(m2, d, f) || Still(m2, m3, f)
    ensures (forall f :: f in m3.free <==> f in m.free) && (forall f :: f !in m.free ==> Still(m, m3, f))
  {
    hide Has;
    forall f ensures f in m3.free <==> f in m.free {
      assert Has(m2, d, f) <==> f in m.free;
    }
    forall f | f !in m.free ensures Still(m, m3, f) {
      assert !Has(m2, d, f) && Still(m, m2, f) && Still(m2, m3, f);
    }
  }

  // The directory and a table for each 4 MB of memory and of devices.
  const KERNELFRAMES: nat := 65

  ghost predicate Tabled(m: Mem, d: nat, s: set<nat>) {
    forall i: nat :: i < NPTENTRIES ==> (Entry(m, d, i).present <==> i in s)
  }

  // The entries with a table after k rows of kmap.
  ghost function KernelTables(data: nat, k: nat): set<nat> {
    set i: nat | i < NPTENTRIES && 512 <= i &&
      if k < 4 then i * NPTENTRIES < Done(data, k) && k > 0 else i * NPTENTRIES < KERNTOP || i * NPTENTRIES >= DEVSPACE
  }

  ghost function Interval(lo: nat, hi: nat): (s: set<nat>)
    requires lo <= hi
    ensures |s| == hi - lo && forall i: nat :: i in s <==> lo <= i < hi
    decreases hi
  {
    if lo == hi then {} else Interval(lo, hi - 1) + {hi - 1}
  }

  lemma KernelTableCount(data: nat)
    ensures |KernelTables(data, 4)| == KERNELFRAMES - 1
  {
    hide Interval;
    assert KernelTables(data, 4) == Interval(512, 568) + Interval(1016, 1024);
    assert Interval(512, 568) !! Interval(1016, 1024);
  }

  // Row k of kmap needs exactly the tables by which KernelTables grows.
  lemma KernelMissing(m1: Mem, m2: Mem, d: nat, data: nat, k: nat)
    requires k < 4 && KERNLINK < data < KERNTOP && Tabled(m1, d, KernelTables(data, k))
    ensures var r := Kmap(data)[k];
      && |KernelTables(data, k + 1)| == |KernelTables(data, k)| + |Missing(m1, d, r.virt, r.virt + r.n)|
      && |KernelTables(data, k + 1)| <= |KernelTables(data, 4)|
      && (Spent(m1, m2, d, r.virt, r.virt + r.n, 0) ==>
            Tabled(m2, d, KernelTables(data, k + 1)) && |m2.free| + |KernelTables(data, k + 1)| == |m1.free| + |KernelTables(data, k)|)
  {
    var r := Kmap(data)[k];
    var missing := Missing(m1, d, r.virt, r.virt + r.n);
    assert KernelTables(data, k + 1) == KernelTables(data, k) + missing;
    assert KernelTables(data, k) !! missing;
    Subset(KernelTables(data, k + 1), KernelTables(data, 4));
  }

  lemma KernelRow(m: Mem, m1: Mem, d: nat, data: nat, k: nat)
    requires k < 4 && KERNLINK < data < KERNTOP && KernelSoFar(m, m1, d, data, k)
    ensures |Kmap(data)| == 4
    ensures var r := Kmap(data)[k];
      && USERPAGES <= r.virt && 0 < r.n && r.virt + r.n <= VPAGES && InHand(m1, d, r.virt, r.n, r.phys)
      && forall w :: r.virt <= w < r.virt + r.n ==> !Leaf(m1, d, w).present
  {
    hide Leaf, Has, Still, Tabled, KernelTables;
  }

  lemma KernelStill(m: Mem, m1: Mem, m2: Mem, d: nat, data: nat, k: nat, n: nat)
    requires k < 4 && KERNLINK < data < KERNTOP && KernelSoFar(m, m1, d, data, k)
    requires var r := Kmap(data)[k]; Maps(m1, m2, d, r.virt, n, r.phys, r.perm)
    ensures forall f :: f !in m.free ==> Still(m, m2, f)
    ensures forall f :: Has(m2, d, f) <==> f in m.free
  {
    hide Has, Leaf, KernelPte, KernelTables, Tabled;
    GrownStill(m, m1, m2, d);
  }

  lemma KernelNext(m: Mem, m1: Mem, m2: Mem, d: nat, data: nat, k: nat)
    requires k < 4 && KERNLINK < data < KERNTOP && KernelSoFar(m, m1, d, data, k)
    requires var r := Kmap(data)[k];
      Maps(m1, m2, d, r.virt, r.n, r.phys, r.perm) && Spent(m1, m2, d, r.virt, r.virt + r.n, 0)
    ensures KernelSoFar(m, m2, d, data, k + 1)
  {
    hide Has, Leaf, Still, KernelTables, Tabled, Spent, Missing;
    KernelStill(m, m1, m2, d, data, k, Kmap(data)[k].n);
    KernelMissing(m1, m2, d, data, k);
  }

  lemma KernelFails(m: Mem, m1: Mem, m2: Mem, d: nat, data: nat, k: nat, n: nat)
    requires k < 4 && KERNLINK < data < KERNTOP && KernelSoFar(m, m1, d, data, k)
    requires var r := Kmap(data)[k];
      Maps(m1, m2, d, r.virt, n, r.phys, r.perm) && |m1.free| < |Missing(m1, d, r.virt, r.virt + r.n)|
    ensures forall f :: f !in m.free ==> Still(m, m2, f)
    ensures forall f :: Has(m2, d, f) <==> f in m.free
    ensures |m.free| < KERNELFRAMES
  {
    hide Has, Leaf, Still, KernelTables, Tabled, Spent, Missing;
    KernelStill(m, m1, m2, d, data, k, n);
    KernelMissing(m1, m2, d, data, k);
    KernelTableCount(data);
  }

  lemma KernelDone(m: Mem, m': Mem, d: nat, data: nat)
    requires KernelSoFar(m, m', d, data, 4)
    ensures forall w: nat :: w < VPAGES ==> Leaf(m', d, w) == KernelPte(data, w)
    ensures forall f :: Has(m', d, f) <==> f in m.free
    ensures forall f :: f !in m.free ==> Still(m, m', f)
    ensures |m'.free| + KERNELFRAMES == |m.free| && Tabled(m', d, KernelTables(data, 4))
  {
    hide Has, Leaf, Still, KernelTables, Tabled;
    KernelTableCount(data);
  }

  // ---------- what freevm does ----------

  // f is one of the first n tables.
  ghost predicate TableOf(m: Mem, d: nat, n: nat, f: nat) {
    exists i: nat :: i < n && Entry(m, d, i).present && Entry(m, d, i).frame == f
  }

  lemma TableOfNext(m: Mem, d: nat, n: nat)
    ensures forall f :: TableOf(m, d, n + 1, f) <==> TableOf(m, d, n, f) || (Entry(m, d, n).present && Entry(m, d, n).frame == f)
  {
    forall f ensures TableOf(m, d, n + 1, f) <==> TableOf(m, d, n, f) || (Entry(m, d, n).present && Entry(m, d, n).frame == f) {
      if TableOf(m, d, n + 1, f) {
        var i: nat :| i < n + 1 && Entry(m, d, i).present && Entry(m, d, i).frame == f;
        assert i < n || i == n;
      }
    }
  }

  lemma NotYetFreed(m: Mem, d: nat, i: nat)
    requires Space(m, d) && i < NPTENTRIES && Entry(m, d, i).present
    ensures var t := Entry(m, d, i).frame; t != d && Managed(m, t) && t !in m.free && !TableOf(m, d, i, t)
  {
    TabIsTable(m, d, i);
    assert Live(m, d, Tab(i)) && KindOk(m, FrameAt(m, d, Tab(i)), Tab(i));
  }

  lemma NoUserPages(m: Mem, m1: Mem, d: nat)
    requires Dealloced(m, m1, d, 0, USERPAGES)
    ensures forall v: nat :: v < USERPAGES ==> !Leaf(m1, d, v).present
  {
    hide Owns, Still, SameHas;
  }

  lemma OwnsNoPages(m: Mem, d: nat)
    requires forall v: nat :: v < USERPAGES ==> !Leaf(m, d, v).present
    ensures forall f :: Owns(m, d, f) <==> f == d || TableOf(m, d, NPTENTRIES, f)
  {
    forall f ensures Owns(m, d, f) <==> f == d || TableOf(m, d, NPTENTRIES, f) {
      assert Live(m, d, Dir) && FrameAt(m, d, Dir) == d;
      if TableOf(m, d, NPTENTRIES, f) {
        var i: nat :| i < NPTENTRIES && Entry(m, d, i).present && Entry(m, d, i).frame == f;
        assert Live(m, d, Tab(i)) && FrameAt(m, d, Tab(i)) == f;
      }
    }
  }

  lemma DeallocStill(m: Mem, m1: Mem, d: nat, f: nat)
    requires Dealloced(m, m1, d, 0, USERPAGES)
    ensures Has(m, d, f) || Still(m, m1, f)
    ensures Has(m1, d, f) <==> Has(m, d, f)
  {
  }

  // ---------- what deallocuvm does ----------

  ghost predicate Dealloced(m: Mem, m': Mem, d: nat, lo: nat, hi: nat) {
    && (forall k: nat :: Entry(m', d, k) == Entry(m, d, k))
    && (forall w: nat :: w < VPAGES ==>
          Leaf(m', d, w) == if lo <= w < hi && Leaf(m, d, w).present then NONE else Leaf(m, d, w))
    && SameHas(m, m', d)
    && (forall f :: !Owns(m, d, f) ==> Still(m, m', f))
    && (forall w: nat :: w < USERPAGES && Leaf(m', d, w).present ==> Still(m, m', Leaf(m', d, w).frame))
  }

  /** A page-by-page loop from a up to hi, without the jump. */
  function Swept(m: Mem, d: nat, a: nat, hi: nat): Mem
    decreases hi - a
  {
    if a >= hi then m else Swept(if Leaf(m, d, a).present then Unmapped(m, d, a) else m, d, a + 1, hi)
  }

  lemma SweptNone(m: Mem, d: nat, a: nat, hi: nat)
    requires a >= hi
    ensures Swept(m, d, a, hi) == m
  {
  }

  lemma SweptStep(m: Mem, d: nat, a: nat, hi: nat)
    requires a < hi
    ensures Swept(m, d, a, hi) == Swept(if Leaf(m, d, a).present then Unmapped(m, d, a) else m, d, a + 1, hi)
  {
  }

  /** Jumping over pages that are not mapped leaves the loop where the page-by-page loop would be. */
  lemma {:induction false} SweptSkip(m: Mem, d: nat, a: nat, b: nat, hi: nat)
    requires a <= b && forall w :: a <= w < b ==> !Leaf(m, d, w).present
    ensures Swept(m, d, a, hi) == Swept(m, d, b, hi)
    decreases b - a
  {
    hide Unmapped, Leaf;
    if a < b { SweptSkip(m, d, a + 1, b, hi); }
  }

  lemma PagesOrder(x: nat, y: nat)
    ensures x <= y ==> Pages(x) <= Pages(y)
    ensures y <= KERNBASE ==> Pages(y) <= USERPAGES
  {
  }

  lemma NoneDealloced(m: Mem, d: nat, lo: nat)
    ensures Dealloced(m, m, d, lo, lo)
  {
  }

  lemma EmptyRange(m: Mem, d: nat, lo: nat, hi: nat)
    requires hi <= lo
    ensures Dealloced(m, m, d, lo, hi)
  {
  }

  // Without a table no page of a directory entry is mapped, so the jump skips nothing.
  lemma NoTableNoPages(m: Mem, d: nat, a: nat, b: nat)
    requires !Entry(m, d, a / NPTENTRIES).present && b == (a / NPTENTRIES + 1) * NPTENTRIES
    ensures a < b && forall w :: a <= w < b ==> !Leaf(m, d, w).present
  {
    forall w | a <= w < b ensures !Leaf(m, d, w).present {
      assert w / NPTENTRIES == a / NPTENTRIES;
    }
  }

  lemma DeallocSkip(m: Mem, m1: Mem, d: nat, lo: nat, a: nat, b: nat)
    requires Dealloced(m, m1, d, lo, a) && lo <= a <= b <= USERPAGES && forall w :: a <= w < b ==> !Leaf(m1, d, w).present
    ensures Dealloced(m, m1, d, lo, b)
  {
    hide SameHas, Owns, Still;
    forall w: nat | w < VPAGES
      ensures Leaf(m1, d, w) == if lo <= w < b && Leaf(m, d, w).present then NONE else Leaf(m, d, w)
    {
      if a <= w < b { assert !Leaf(m1, d, w).present; }
    }
  }

  lemma DeallocStep(m: Mem, m1: Mem, d: nat, lo: nat, a: nat)
    requires Dealloced(m, m1, d, lo, a) && lo <= a && CanUnmap(m1, d, a)
    ensures Dealloced(m, Unmapped(m1, d, a), d, lo, a + 1)
  {
    var m2 := Unmapped(m1, d, a);
    UnmappedEntries(m1, d, a);
    UnmappedOk(m1, d, a);
    UnmappedStill(m1, d, a);
    hide Pool, SlotsOk, Injective, KindOk, Unmapped;
    assert forall f :: Has(m, d, f) <==> Has(m1, d, f);
    forall f | !Owns(m, d, f) ensures Still(m, m2, f) {
      assert Still(m, m1, f);
      if f !in m.free {
        assert Has(m1, d, f) <==> Has(m, d, f);
        assert Still(m1, m2, f);
      }
    }
    forall w: nat | w < USERPAGES && Leaf(m2, d, w).present ensures Still(m, m2, Leaf(m2, d, w).frame) {
      assert Still(m, m1, Leaf(m1, d, w).frame) && Still(m1, m2, Leaf(m1, d, w).frame);
    }
  }

  lemma UnmappedStill(m: Mem, d: nat, a: nat)
    requires CanUnmap(m, d, a)
    ensures var m' := Unmapped(m, d, a);
      && (forall f :: !Owns(m, d, f) ==> Still(m, m', f))
      && (forall w: nat :: w < USERPAGES && w != a && Leaf(m, d, w).present ==> Still(m, m', Leaf(m, d, w).frame))
  {
    var m', g, t := Unmapped(m, d, a), Leaf(m, d, a).frame, Entry(m, d, a / NPTENTRIES).frame;
    UnmappedEntries(m, d, a);
    assert Live(m, d, User(a)) && FrameAt(m, d, User(a)) == g;
    assert Live(m, d, Tab(a / NPTENTRIES)) && FrameAt(m, d, Tab(a / NPTENTRIES)) == t;
    assert Owns(m, d, g) && Owns(m, d, t);
    forall w: nat | w < USERPAGES && w != a && Leaf(m, d, w).present ensures Still(m, m', Leaf(m, d, w).frame) {
      assert Live(m, d, User(w)) && User(w) != User(a) && User(w) != Tab(a / NPTENTRIES);
    }
  }

  ghost predicate PageOf(m: Mem, d: nat, lo: nat, hi: nat, f: nat) {
    exists v: nat :: lo <= v < hi && Leaf(m, d, v).present && Leaf(m, d, v).frame == f
  }

  lemma PageOwned(m: Mem, d: nat, lo: nat, hi: nat, f: nat)
    requires hi <= USERPAGES
    ensures PageOf(m, d, lo, hi, f) ==> Owns(m, d, f)
  {
    if PageOf(m, d, lo, hi, f) {
      var v: nat :| lo <= v < hi && Leaf(m, d, v).present && Leaf(m, d, v).frame == f;
      assert Live(m, d, User(v)) && FrameAt(m, d, User(v)) == f;
    }
  }

  /** The frames that deallocuvm puts on the free list are those of the mapped pages in its range. */
  lemma DeallocFrees(m: Mem, m': Mem, d: nat, lo: nat, hi: nat, f: nat)
    requires Space(m, d) && Space(m', d) && Dealloced(m, m', d, lo, hi) && hi <= USERPAGES
    ensures f in m'.free <==> f in m.free || PageOf(m, d, lo, hi, f)
  {
    PageOwned(m, d, lo, hi, f);
    assert Has(m', d, f) <==> Has(m, d, f);
    if Owns(m', d, f) {
      var s :| Live(m', d, s) && FrameAt(m', d, s) == f;
      assert Live(m, d, s) && FrameAt(m, d, s) == f;
      assert KindOk(m, f, s) && KindOk(m', f, s);
      if PageOf(m, d, lo, hi, f) {
        var v: nat :| lo <= v < hi && Leaf(m, d, v).present && Leaf(m, d, v).frame == f;
        assert Live(m, d, User(v));
        assert false;
      }
    } else if Owns(m, d, f) {
      var s :| Live(m, d, s) && FrameAt(m, d, s) == f;
      assert !Live(m', d, s);
    }
  }

  ghost predicate MapsOne(m: Mem, m': Mem, d: nat, v: nat, pte: Pte, ok: bool) {
    && (forall w: nat :: w < VPAGES ==> Leaf(m', d, w) == if ok && w == v then pte else Leaf(m, d, w))
    && (forall f :: Has(m', d, f) <==> Has(m, d, f) || (ok && v < USERPAGES && f == pte.frame))
    && Kept(m, m', d)
  }

  /** The first k pages from v on are mapped, and nothing else has changed but free frames turned into tables. */
  ghost predicate Maps(m: Mem, m': Mem, d: nat, v: nat, k: nat, frame: nat, perm: nat) {
    && (forall w: nat :: w < VPAGES ==>
          Leaf(m', d, w) == if v <= w < v + k then Pte(frame + (w - v), true, perm) else Leaf(m, d, w))
    && (forall f: nat :: Has(m', d, f) <==> Has(m, d, f) || (frame <= f < frame + k && v + (f - frame) < USERPAGES))
    && Kept(m, m', d)
  }

  // The frames for user pages among v..v + n are the caller's to give.
  ghost predicate InHand(m: Mem, d: nat, v: nat, n: nat, frame: nat) {
    forall f: nat :: frame <= f < frame + n && v + (f - frame) < USERPAGES ==> Loose(m, d, f)
  }

  lemma WithTableKept(m: Mem, d: nat, i: nat)
    requires NeedsTable(m, d, i) && d in m.page && m.page[d].Table? && i < |m.page[d].e|
    ensures Kept(m, WithTable(m, d, i), d)
  {
    assert Live(m, d, Dir) && FrameAt(m, d, Dir) == d;
    assert Owns(m, d, d);
  }

  lemma WithLeafKept(m: Mem, d: nat, v: nat, pte: Pte)
    requires HasTable(m, d, v)
    ensures Kept(m, WithLeaf(m, d, v, pte), d)
  {
    TabIsTable(m, d, v / NPTENTRIES);
    assert Live(m, d, Tab(v / NPTENTRIES));
    assert Owns(m, d, Entry(m, d, v / NPTENTRIES).frame);
  }

  lemma LooseKept(m: Mem, m': Mem, d: nat, f: nat)
    requires Loose(m, d, f) && Kept(m, m', d) && SameHas(m, m', d) && m'.first == m.first
    ensures Loose(m', d, f)
  {
    assert Still(m, m', f);
  }

  lemma NothingMapped(m: Mem, d: nat, v: nat, pte: Pte)
    ensures MapsOne(m, m, d, v, pte, false)
  {
  }

  lemma NoneMapped(m: Mem, d: nat, v: nat, frame: nat, perm: nat)
    ensures Maps(m, m, d, v, 0, frame, perm)
  {
  }

  // m1 has a table for v that m may lack.
  lemma MapAfterWalk(m: Mem, m1: Mem, d: nat, v: nat, pte: Pte)
    requires SameHas(m, m1, d) && SameLeaves(m, m1, d) && Kept(m, m1, d) && HasTable(m1, d, v) && m1.first == m.first
    requires !Leaf(m, d, v).present && pte.present && (v < USERPAGES ==> Loose(m, d, pte.frame))
    ensures Space(WithLeaf(m1, d, v, pte), d) && MapsOne(m, WithLeaf(m1, d, v, pte), d, v, pte, true)
    ensures forall k: nat :: Entry(WithLeaf(m1, d, v, pte), d, k) == Entry(m1, d, k)
  {
    hide Has, Owns, Space;
    if v < USERPAGES { LooseKept(m, m1, d, pte.frame); }
    MappedOk(m1, d, v, pte);
    WithLeafEntries(m1, d, v, pte);
    WithLeafKept(m1, d, v, pte);
    KeptTrans(m, m1, WithLeaf(m1, d, v, pte), d);
  }

  lemma MapsMore(m: Mem, m1: Mem, m2: Mem, d: nat, v: nat, k: nat, frame: nat, perm: nat)
    requires InHand(m, d, v, k + 1, frame)
    requires Maps(m, m1, d, v, k, frame, perm) && MapsOne(m1, m2, d, v + k, Pte(frame + k, true, perm), true)
    ensures Maps(m, m2, d, v, k + 1, frame, perm)
  {
    hide Has, Owns, Leaf;
    forall f | Has(m1, d, f) ensures Has(m, d, f) || !(f in m.page && m.page[f].Table?) {
      assert Has(m, d, f) || Loose(m, d, f);
    }
    KeptTrans(m, m1, m2, d);
  }

  // The frames not mapped yet are still the caller's.
  lemma StillLoose(m: Mem, m1: Mem, d: nat, v: nat, k: nat, frame: nat, perm: nat)
    requires Loose(m, d, frame + k) && Maps(m, m1, d, v, k, frame, perm) && m1.first == m.first
    ensures Loose(m1, d, frame + k)
  {
    hide Leaf, Owns;
    assert Still(m, m1, frame + k) && !Has(m1, d, frame + k);
  }

  lemma TooFew(m: Mem, m1: Mem, d: nat, lo: nat, a: nat, hi: nat)
    requires Spent(m, m1, d, lo, a, 0) && lo <= a < hi && m1.free == [] && |Missing(m1, d, a, a + 1)| == 1
    ensures |m.free| < |Missing(m, d, lo, hi)|
  {
    MissingMore(m, m1, d, lo, a, hi, 0);
    MissingGrows(m1, d, a, a + 1, hi);
  }

  lemma SpentAll(m: Mem, m1: Mem, d: nat, lo: nat, hi: nat)
    requires Spent(m, m1, d, lo, hi, 0)
    ensures |m.free| >= |Missing(m, d, lo, hi)|
  {
  }
}
