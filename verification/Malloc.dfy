/** umalloc.c: the allocator of section 8.7 of "The C Programming Language", 2nd edition. Addresses
    count header-sized units; `base` lies below all memory obtained from sbrk. */
module Malloc {
  datatype Header = Header(ptr: int, size: nat)
  type Memory = map<int, Header>

  const UNIT: nat := 8          // sizeof(Header)
  const MIN_CORE: nat := 4096   // smallest request to sbrk, in units

  // ---------- tiles: the blocks, free or not, that divide up the core ----------

  type Tiles = map<int, nat>

  ghost predicate Apart(t: Tiles, a: int, b: int)
    requires a in t && b in t
  {
    a + t[a] <= b || b + t[b] <= a
  }

  // Unit u belongs to block a.
  predicate In(t: Tiles, a: int, u: int) {
    a in t && a <= u < a + t[a]
  }

  ghost predicate Covered(t: Tiles, u: int) {
    exists a :: In(t, a, u)
  }

  /** The blocks lie inside the core, cover it, and do not overlap. */
  ghost predicate Tiled(t: Tiles, core: set<int>) {
    && (forall a :: a in t ==> t[a] > 0)
    && (forall a, b :: a in t && b in t && a != b ==> Apart(t, a, b))
    && (forall a, u :: In(t, a, u) ==> u in core)
    && (forall u :: u in core ==> Covered(t, u))
  }

  function Split(t: Tiles, a: int, n: nat): Tiles
    requires a in t && 0 < n < t[a]
  {
    t[a := t[a] - n][a + t[a] - n := n]
  }

  lemma SplitTiled(t: Tiles, core: set<int>, a: int, n: nat)
    requires Tiled(t, core) && a in t && 0 < n < t[a]
    ensures a + t[a] - n !in t && Tiled(Split(t, a, n), core)
  {
    var b, t' := a + t[a] - n, Split(t, a, n);
    assert b in t ==> Apart(t, a, b);
    forall x, y | x in t' && y in t' && x != y ensures Apart(t', x, y) {
      assert x in t && y in t ==> Apart(t, x, y);
      assert x in t && x != a ==> Apart(t, a, x);
      assert y in t && y != a ==> Apart(t, a, y);
    }
    forall x, u | In(t', x, u) ensures u in core {
      assert In(t, if x == b then a else x, u);
    }
    forall u | u in core ensures Covered(t', u) {
      assert Covered(t, u);
      var x :| In(t, x, u);
      assert In(t', if x == a && u >= b then b else x, u);
    }
  }

  function Merge(t: Tiles, a: int): Tiles
    requires a in t && a + t[a] in t
  {
    (t - {a + t[a]})[a := t[a] + t[a + t[a]]]
  }

  lemma MergeTiled(t: Tiles, core: set<int>, a: int)
    requires Tiled(t, core) && a in t && a + t[a] in t
    ensures Tiled(Merge(t, a), core)
  {
    var b, t' := a + t[a], Merge(t, a);
    forall x, y | x in t' && y in t' && x != y ensures Apart(t', x, y) {
      assert Apart(t, x, y);
      assert x == a ==> Apart(t, b, y);
      assert y == a ==> Apart(t, b, x);
    }
    forall x, u | In(t', x, u) ensures u in core {
      assert In(t, if x == a && u >= b then b else x, u);
    }
    forall u | u in core ensures Covered(t', u) {
      assert Covered(t, u);
      var x :| In(t, x, u);
      assert In(t', if x == b then a else x, u);
    }
  }

  predicate Within(p: int, n: nat, u: int) {
    p <= u < p + n
  }

  function Region(p: int, n: nat): set<int> {
    set u: int | p <= u < p + n && Within(p, n, u)
  }

  lemma GrowTiled(t: Tiles, core: set<int>, p: int, n: nat)
    requires Tiled(t, core) && n > 0 && forall u :: u in core ==> u < p
    ensures forall a :: a in t ==> a + t[a] <= p
    ensures Tiled(t[p := n], core + Region(p, n))
  {
    var t' := t[p := n];
    forall a | a in t ensures a + t[a] <= p {
      assert In(t, a, a + t[a] - 1);
    }
    forall x, u | In(t', x, u) ensures u in core + Region(p, n) {
      assert if x == p then Within(p, n, u) else In(t, x, u);
    }
    forall u | u in core + Region(p, n) ensures Covered(t', u) {
      if u in core {
        assert Covered(t, u);
        var x :| In(t, x, u);
        assert In(t', x, u);
      } else {
        assert In(t', p, u);
      }
    }
  }

  // ---------- the ring ----------

  // base, the free blocks in address order, and base again.
  function Ring(base: int, F: seq<int>): (r: seq<int>)
    ensures |r| == |F| + 2
  {
    [base] + F + [base]
  }

  ghost predicate Link(mem: Memory, r: seq<int>, k: nat)
    requires k + 1 < |r|
  {
    r[k] in mem && mem[r[k]].ptr == r[k + 1]
  }

  ghost predicate Links(mem: Memory, base: int, F: seq<int>) {
    forall k :: 0 <= k <= |F| ==> Link(mem, Ring(base, F), k)
  }

  /** Free blocks ascend, and each ends before the next begins: no two of them touch. */
  ghost predicate Ascending(base: int, F: seq<int>, t: Tiles) {
    && (forall i :: 0 <= i < |F| ==> base < F[i] && F[i] in t)
    && (forall i, j :: 0 <= i < j < |F| ==> F[i] + t[F[i]] < F[j])
  }

  ghost predicate Headers(mem: Memory, t: Tiles) {
    forall a :: a in t ==> a in mem && mem[a].size == t[a]
  }

  ghost predicate HeapInv(mem: Memory, base: int, F: seq<int>, t: Tiles, core: set<int>) {
    && Tiled(t, core) && Headers(mem, t) && Links(mem, base, F) && Ascending(base, F, t)
    && base in mem && mem[base].size == 0
    && (forall a :: a in t ==> base < a)
  }

  // ---------- free ----------

  // Where the block at bp belongs: after the k-th element of the ring.
  ghost predicate Gap(base: int, F: seq<int>, k: nat, bp: int) {
    k <= |F| && Ring(base, F)[k] < bp && (k < |F| ==> bp < F[k])
  }

  function Inserted(F: seq<int>, k: nat, bp: int): seq<int>
    requires k <= |F|
  {
    F[..k] + [bp] + F[k..]
  }

  function Dropped(F: seq<int>, k: nat): seq<int>
    requires k < |F|
  {
    F[..k] + F[k + 1..]
  }

  // A block that is in use touches its neighbours in the ring at most.
  lemma GapApart(mem: Memory, base: int, F: seq<int>, t: Tiles, core: set<int>, k: nat, bp: int)
    requires HeapInv(mem, base, F, t, core) && bp in t && bp !in F && Gap(base, F, k, bp)
    ensures forall i :: 0 <= i < k ==> F[i] + t[F[i]] <= bp && (i < k - 1 ==> F[i] + t[F[i]] < bp)
    ensures forall i :: k <= i < |F| ==> bp + t[bp] <= F[i] && (k < i ==> bp + t[bp] < F[i])
  {
    forall i | 0 <= i < |F| ensures if i < k then F[i] + t[F[i]] <= bp else bp + t[bp] <= F[i] {
      assert Apart(t, F[i], bp);
    }
  }

  lemma LinksInsert(mem: Memory, mem': Memory, base: int, F: seq<int>, k: nat, bp: int)
    requires Links(mem, base, F) && k <= |F| && bp !in F && bp != base
    requires forall a :: a in mem && a != bp && a != Ring(base, F)[k] ==> a in mem' && mem'[a].ptr == mem[a].ptr
    requires bp in mem' && mem'[bp].ptr == Ring(base, F)[k + 1]
    requires Ring(base, F)[k] in mem' && mem'[Ring(base, F)[k]].ptr == bp
    requires forall i, j :: 0 <= i < j <= |F| ==> Ring(base, F)[i] != Ring(base, F)[j]
    ensures Links(mem', base, Inserted(F, k, bp))
  {
    var r, r' := Ring(base, F), Ring(base, Inserted(F, k, bp));
    assert forall j :: 0 <= j < |r'| ==> r'[j] == if j <= k then r[j] else if j == k + 1 then bp else r[j - 1];
    forall j | 0 <= j <= |F| + 1 ensures Link(mem', r', j) {
      if j < k { assert Link(mem, r, j); }
      if j > k + 1 { assert Link(mem, r, j - 1); }
    }
  }

  lemma LinksDrop(mem: Memory, mem': Memory, base: int, F: seq<int>, k: nat)
    requires Links(mem, base, F) && k < |F| && F[k] in mem
    requires forall a :: a in mem && a != F[k] && a != Ring(base, F)[k] ==> a in mem' && mem'[a].ptr == mem[a].ptr
    requires Ring(base, F)[k] in mem' && mem'[Ring(base, F)[k]].ptr == mem[F[k]].ptr
    requires forall i, j :: 0 <= i < j <= |F| ==> Ring(base, F)[i] != Ring(base, F)[j]
    ensures Links(mem', base, Dropped(F, k))
  {
    var r, r' := Ring(base, F), Ring(base, Dropped(F, k));
    assert forall j :: 0 <= j < |r'| ==> r'[j] == if j <= k then r[j] else r[j + 1];
    forall j | 0 <= j <= |F| - 1 ensures Link(mem', r', j) {
      var m := if j < k then j else j + 1;
      assert Link(mem, r, m) && r[k + 1] == F[k];
      assert j != k ==> r'[j] == r[m] && r[m] != r[k] && r[m] != r[k + 1];
    }
  }

  lemma RingDistinct(base: int, F: seq<int>, t: Tiles)
    requires Ascending(base, F, t)
    ensures forall i, j :: 0 <= i < j <= |F| ==> Ring(base, F)[i] != Ring(base, F)[j]
  {
    forall i, j | 0 <= i < j < |F| ensures F[i] != F[j] {
      assert F[i] + t[F[i]] < F[j];
    }
  }

  /** Linking a block that touches no free block into its gap. */
  lemma InsertInv(mem: Memory, base: int, F: seq<int>, t: Tiles, core: set<int>, k: nat, bp: int)
    requires HeapInv(mem, base, F, t, core) && bp in t && bp !in F && Gap(base, F, k, bp)
    requires !(k < |F| && bp + t[bp] == F[k]) && !(k > 0 && F[k - 1] + t[F[k - 1]] == bp)
    ensures var p, q := Ring(base, F)[k], Ring(base, F)[k + 1];
      && p in mem && bp in mem
      && HeapInv(mem[bp := Header(q, t[bp])][p := mem[p].(ptr := bp)], base, Inserted(F, k, bp), t, core)
  {
    var p, q := Ring(base, F)[k], Ring(base, F)[k + 1];
    var F' := Inserted(F, k, bp);
    var mem' := mem[bp := Header(q, t[bp])][p := mem[p].(ptr := bp)];
    assert Link(mem, Ring(base, F), k);
    GapApart(mem, base, F, t, core, k, bp);
    RingDistinct(base, F, t);
    LinksInsert(mem, mem', base, F, k, bp);
    InsertAscending(base, F, t, k, bp);
  }

  lemma InsertAscending(base: int, F: seq<int>, t: Tiles, k: nat, bp: int)
    requires Ascending(base, F, t) && k <= |F| && bp in t && base < bp
    requires forall i :: 0 <= i < k ==> F[i] + t[F[i]] < bp
    requires forall i :: k <= i < |F| ==> bp + t[bp] < F[i]
    ensures Ascending(base, Inserted(F, k, bp), t)
  {
    var F' := Inserted(F, k, bp);
    assert forall i :: 0 <= i < |F'| ==> F'[i] == if i < k then F[i] else if i == k then bp else F[i - 1];
  }

  lemma DropAscending(base: int, F: seq<int>, t: Tiles, k: nat)
    requires Ascending(base, F, t) && k < |F|
    ensures Ascending(base, Dropped(F, k), t) && F[k] !in Dropped(F, k)
    ensures forall i :: k <= i < |Dropped(F, k)| ==> F[k] + t[F[k]] < Dropped(F, k)[i]
  {
    var F' := Dropped(F, k);
    assert forall i :: 0 <= i < |F'| ==> F'[i] == if i < k then F[i] else F[i + 1];
    forall i | 0 <= i < |F'| ensures F'[i] != F[k] && (k <= i ==> F[k] + t[F[k]] < F'[i]) {
      if i < k { assert F[i] + t[F[i]] < F[k]; } else { assert F[k] + t[F[k]] < F[i + 1]; }
    }
  }

  // The pointer field of a block in use is not part of the structure.
  lemma LivePtr(mem: Memory, base: int, F: seq<int>, t: Tiles, core: set<int>, bp: int, x: int)
    requires HeapInv(mem, base, F, t, core) && bp in t && bp !in F
    ensures HeapInv(mem[bp := Header(x, t[bp])], base, F, t, core)
  {
    var mem' := mem[bp := Header(x, t[bp])];
    forall k | 0 <= k <= |F| ensures Link(mem', Ring(base, F), k) {
      assert Link(mem, Ring(base, F), k);
    }
  }

  // The block at bp takes over the free block at q, which leaves the ring behind p.
  function Absorbed(mem: Memory, bp: int, p: int, q: int): Memory
    requires bp in mem && p in mem && q in mem
  {
    mem[bp := Header(mem[q].ptr, mem[bp].size + mem[q].size)][p := mem[p].(ptr := mem[q].ptr)]
  }

  /** The block takes over the free block right behind it, which leaves the ring. */
  lemma RightInv(mem: Memory, base: int, F: seq<int>, t: Tiles, core: set<int>, k: nat, bp: int)
    requires HeapInv(mem, base, F, t, core) && bp in t && bp !in F && Gap(base, F, k, bp)
    requires k < |F| && bp + t[bp] == F[k]
    ensures var p, q, F' := Ring(base, F)[k], F[k], Dropped(F, k);
      && p in mem && q in mem && q in t && bp in mem && mem[bp].size == t[bp] && p != bp
      && HeapInv(Absorbed(mem, bp, p, q), base, F', Merge(t, bp), core)
      && Gap(base, F', k, bp) && Ring(base, F')[k] == p && bp in Absorbed(mem, bp, p, q)
      && bp in Merge(t, bp) && Merge(t, bp)[bp] >= t[bp] && (k < |F'| ==> bp + Merge(t, bp)[bp] < F'[k])
  {
    var p, q := Ring(base, F)[k], F[k];
    var mem' := Absorbed(mem, bp, p, q);
    var F' := Dropped(F, k);
    assert Link(mem, Ring(base, F), k);
    MergeTiled(t, core, bp);
    RingDistinct(base, F, t);
    LivePtr(mem, base, F, t, core, bp, mem[q].ptr);
    LinksDrop(mem[bp := Header(mem[q].ptr, t[bp])], mem', base, F, k);
    DropAscending(base, F, t, k);
    assert Ring(base, F')[k] == p;
  }

  /** The free block right before takes the block over; the ring stays as it is. */
  lemma LeftInv(mem: Memory, base: int, F: seq<int>, t: Tiles, core: set<int>, k: nat, bp: int)
    requires HeapInv(mem, base, F, t, core) && bp in t && bp !in F && Gap(base, F, k, bp)
    requires k > 0 && F[k - 1] + t[F[k - 1]] == bp && (k < |F| ==> bp + t[bp] < F[k])
    ensures var p := F[k - 1];
      HeapInv(mem[p := mem[p].(size := t[p] + t[bp])], base, F, Merge(t, p), core)
  {
    var p := F[k - 1];
    var mem' := mem[p := mem[p].(size := t[p] + t[bp])];
    MergeTiled(t, core, p);
    forall j | 0 <= j <= |F| ensures Link(mem', Ring(base, F), j) {
      assert Link(mem, Ring(base, F), j);
    }
    forall i, j | 0 <= i < j < |F| ensures F[i] + Merge(t, p)[F[i]] < F[j] {
      assert F[i] + t[F[i]] < F[j];
      if i == k - 1 && j > k { assert F[k] + t[F[k]] < F[j]; }
    }
  }

  // ---------- malloc ----------

  // An exact fit leaves the ring.
  lemma TakeInv(mem: Memory, base: int, F: seq<int>, t: Tiles, core: set<int>, k: nat)
    requires HeapInv(mem, base, F, t, core) && k < |F|
    ensures var p := Ring(base, F)[k];
      && p in mem && F[k] in mem && F[k] !in Dropped(F, k)
      && HeapInv(mem[p := mem[p].(ptr := mem[F[k]].ptr)], base, Dropped(F, k), t, core)
  {
    var p, F' := Ring(base, F)[k], Dropped(F, k);
    assert Link(mem, Ring(base, F), k);
    RingDistinct(base, F, t);
    LinksDrop(mem, mem[p := mem[p].(ptr := mem[F[k]].ptr)], base, F, k);
    DropAscending(base, F, t, k);
  }

  lemma TakeLive(base: int, F: seq<int>, t: Tiles, k: nat)
    requires Ascending(base, F, t) && k < |F|
    ensures Live(Dropped(F, k), t) == Live(F, t)[F[k] := t[F[k]]]
  {
    DropAscending(base, F, t, k);
    DroppedMembers(F, k);
  }

  lemma CarveLive(mem: Memory, base: int, F: seq<int>, t: Tiles, core: set<int>, k: nat, n: nat)
    requires HeapInv(mem, base, F, t, core) && k < |F| && 0 < n < t[F[k]]
    ensures var bp := F[k] + t[F[k]] - n;
      bp > base && bp !in Live(F, t) && Live(F, Split(t, F[k], n)) == Live(F, t)[bp := n]
  {
    SplitTiled(t, core, F[k], n);
  }

  // The headers after a block of n units is cut off the end of the block at p.
  function Carved(mem: Memory, p: int, n: nat): Memory
    requires p in mem && n < mem[p].size
  {
    var bp := p + mem[p].size - n;
    mem[p := mem[p].(size := mem[p].size - n)][bp := Header(if bp in mem then mem[bp].ptr else 0, n)]
  }

  // A larger block gives up its tail.
  lemma CarveInv(mem: Memory, base: int, F: seq<int>, t: Tiles, core: set<int>, k: nat, n: nat)
    requires HeapInv(mem, base, F, t, core) && k < |F| && 0 < n < t[F[k]]
    ensures var p := F[k];
      var bp := p + t[p] - n;
      && bp !in t && bp !in F && bp != base && p in mem && mem[p].size == t[p]
      && HeapInv(Carved(mem, p, n), base, F, Split(t, p, n), core)
  {
    var p := F[k];
    var bp := p + t[p] - n;
    SplitTiled(t, core, p, n);
    var mem' := Carved(mem, p, n);
    forall j | 0 <= j <= |F| ensures Link(mem', Ring(base, F), j) {
      assert Link(mem, Ring(base, F), j);
    }
    forall i, j | 0 <= i < j < |F| ensures F[i] + Split(t, p, n)[F[i]] < F[j] {
      assert F[i] + t[F[i]] < F[j];
    }
  }

  // ---------- free as a whole ----------

  /** The blocks that the program holds, with their sizes in units. */
  ghost function Live(F: seq<int>, t: Tiles): Tiles {
    map a | a in t && a !in F :: t[a]
  }

  // After the first if of free: bp has absorbed its right neighbour or not, and knows its successor.
  function JoinRight(mem: Memory, bp: int, q: int): Memory
    requires bp in mem && q in mem
  {
    if bp + mem[bp].size == q then mem[bp := Header(mem[q].ptr, mem[bp].size + mem[q].size)]
    else mem[bp := mem[bp].(ptr := q)]
  }

  // After the second if.
  function JoinLeft(mem: Memory, bp: int, p: int): Memory
    requires bp in mem && p in mem
  {
    if p + mem[p].size == bp then mem[p := Header(mem[bp].ptr, mem[p].size + mem[bp].size)]
    else mem[p := mem[p].(ptr := bp)]
  }

  lemma LeftOrInsert(mem: Memory, base: int, F: seq<int>, t: Tiles, core: set<int>, k: nat, bp: int)
    returns (F': seq<int>, t': Tiles)
    requires HeapInv(mem, base, F, t, core) && bp in t && bp !in F && Gap(base, F, k, bp)
    requires mem[bp].ptr == Ring(base, F)[k + 1] && (k < |F| ==> bp + t[bp] < F[k])
    ensures Ring(base, F)[k] in mem && HeapInv(JoinLeft(mem, bp, Ring(base, F)[k]), base, F', t', core)
    ensures Live(F', t') == Live(F, t) - {bp}
    ensures Ring(base, F)[k] == base || Ring(base, F)[k] in F'
    ensures exists a :: a in F' && a in t' && t'[a] >= t[bp]
  {
    var p := Ring(base, F)[k];
    LinkAt(mem, base, F, k);
    assert k > 0 ==> p == F[k - 1];
    if p + mem[p].size == bp {
      F', t' := F, Merge(t, p);
      LeftInv(mem, base, F, t, core, k, bp);
      LeftLive(F, t, p, bp);
      assert JoinLeft(mem, bp, p) == mem[p := mem[p].(size := t[p] + t[bp])];
      hide HeapInv, Ring, Live, Merge;
    } else {
      F', t' := Inserted(F, k, bp), t;
      InsertInv(mem, base, F, t, core, k, bp);
      InsertedMembers(F, k, bp);
      InsertLive(F, t, k, bp);
      hide HeapInv, Ring, Live, Inserted;
      assert JoinLeft(mem, bp, p) == mem[bp := Header(Ring(base, F)[k + 1], t[bp])][p := mem[p].(ptr := bp)];
    }
  }

  lemma InsertLive(F: seq<int>, t: Tiles, k: nat, bp: int)
    requires k <= |F| && bp in t
    ensures Live(Inserted(F, k, bp), t) == Live(F, t) - {bp}
  {
    InsertedMembers(F, k, bp);
  }

  lemma LeftLive(F: seq<int>, t: Tiles, p: int, bp: int)
    requires p in F && p in t && bp in t && bp !in F && p + t[p] == bp
    ensures Live(F, Merge(t, p)) == Live(F, t) - {bp} && Merge(t, p)[p] >= t[bp]
  {
  }

  lemma InsertedMembers(F: seq<int>, k: nat, bp: int)
    requires k <= |F|
    ensures forall a :: a in Inserted(F, k, bp) <==> a == bp || a in F
  {
    assert F == F[..k] + F[k..];
  }

  lemma DroppedMembers(F: seq<int>, k: nat)
    requires k < |F|
    ensures forall a :: a in F <==> a == F[k] || a in Dropped(F, k)
  {
    assert F == F[..k] + [F[k]] + F[k + 1..];
  }

  /** free: the ring stays ascending and fully coalesced, and only bp stops being held. */
  lemma FreeInv(mem: Memory, base: int, F: seq<int>, t: Tiles, core: set<int>, k: nat, bp: int)
    returns (F': seq<int>, t': Tiles)
    requires HeapInv(mem, base, F, t, core) && bp in t && bp !in F && Gap(base, F, k, bp)
    ensures var p, q := Ring(base, F)[k], Ring(base, F)[k + 1];
      && bp in mem && q in mem && p in mem && mem[p].ptr == q && (p == base || p in F')
      && HeapInv(JoinLeft(JoinRight(mem, bp, q), bp, p), base, F', t', core)
    ensures Live(F', t') == Live(F, t) - {bp}
    ensures exists a :: a in F' && a in t' && t'[a] >= t[bp]
  {
    var p, q := Ring(base, F)[k], Ring(base, F)[k + 1];
    LinkAt(mem, base, F, k);
    GapApart(mem, base, F, t, core, k, bp);
    if bp + mem[bp].size == q {
      F', t' := FreeRight(mem, base, F, t, core, k, bp);
    } else {
      LivePtr(mem, base, F, t, core, bp, q);
      F', t' := LeftOrInsert(mem[bp := Header(q, t[bp])], base, F, t, core, k, bp);
      assert JoinRight(mem, bp, q) == mem[bp := Header(q, t[bp])];
    }
  }

  // free when the block touches the next free one.
  lemma FreeRight(mem: Memory, base: int, F: seq<int>, t: Tiles, core: set<int>, k: nat, bp: int)
    returns (F': seq<int>, t': Tiles)
    requires HeapInv(mem, base, F, t, core) && bp in t && bp !in F && Gap(base, F, k, bp)
    requires k < |F| && bp + t[bp] == F[k]
    ensures var p := Ring(base, F)[k];
      && bp in mem && F[k] in mem && p in mem && (p == base || p in F')
      && HeapInv(JoinLeft(JoinRight(mem, bp, F[k]), bp, p), base, F', t', core)
    ensures Live(F', t') == Live(F, t) - {bp}
    ensures exists a :: a in F' && a in t' && t'[a] >= t[bp]
  {
    var p, q, F1 := Ring(base, F)[k], F[k], Dropped(F, k);
    RightInv(mem, base, F, t, core, k, bp);
    RightLive(F, t, k, bp);
    JoinSame(mem, bp, p, q);
    hide Live, JoinLeft, JoinRight, Ring, Dropped, Gap, Merge, Absorbed, HeapInv;
    AbsorbedPtr(mem, base, F1, Merge(t, bp), core, k, bp, p, q);
    F', t' := LeftOrInsert(Absorbed(mem, bp, p, q), base, F1, Merge(t, bp), core, k, bp);
  }

  lemma AbsorbedPtr(mem: Memory, base: int, F: seq<int>, t: Tiles, core: set<int>, k: nat, bp: int, p: int, q: int)
    requires bp in mem && p in mem && q in mem && p != bp && k <= |F| && Ring(base, F)[k] == p
    requires HeapInv(Absorbed(mem, bp, p, q), base, F, t, core)
    ensures bp in Absorbed(mem, bp, p, q) && Absorbed(mem, bp, p, q)[bp].ptr == Ring(base, F)[k + 1]
  {
    LinkAt(Absorbed(mem, bp, p, q), base, F, k);
  }

  // The second if overwrites the pointer of p, so it does not matter what it was.
  lemma JoinSame(mem: Memory, bp: int, p: int, q: int)
    requires bp in mem && p in mem && q in mem && p != bp && bp + mem[bp].size == q
    ensures bp in Absorbed(mem, bp, p, q) && p in Absorbed(mem, bp, p, q)
    ensures JoinLeft(Absorbed(mem, bp, p, q), bp, p) == JoinLeft(JoinRight(mem, bp, q), bp, p)
  {
  }

  lemma RightLive(F: seq<int>, t: Tiles, k: nat, bp: int)
    requires k < |F| && bp in t && bp !in F && F[k] in t && bp + t[bp] == F[k]
    ensures Live(Dropped(F, k), Merge(t, bp)) - {bp} == Live(F, t) - {bp} && bp !in Dropped(F, k)
  {
    DroppedMembers(F, k);
  }

  // ---------- searching the ring ----------

  lemma RingIndex(base: int, F: seq<int>, p: int) returns (k: nat)
    requires p == base || p in F
    ensures k <= |F| && Ring(base, F)[k] == p
  {
    if p == base {
      k := 0;
    } else {
      var i :| 0 <= i < |F| && F[i] == p;
      k := i + 1;
    }
  }

  lemma {:induction false} GapExists(base: int, F: seq<int>, t: Tiles, bp: int) returns (k: nat)
    requires Ascending(base, F, t) && base < bp && bp !in F
    ensures Gap(base, F, k, bp)
  {
    k := 0;
    while k < |F| && F[k] < bp
      invariant k <= |F| && (k > 0 ==> F[k - 1] < bp)
    {
      k := k + 1;
    }
    assert k > 0 ==> Ring(base, F)[k] == F[k - 1];
  }

  // The exit tests of the search loop hold at the gap and nowhere else.
  lemma GapOnly(base: int, F: seq<int>, t: Tiles, bp: int, g: nat, k: nat)
    requires Ascending(base, F, t) && Gap(base, F, g, bp) && k <= |F|
    ensures var p, q := Ring(base, F)[k], Ring(base, F)[k + 1];
      ((bp > p && bp < q) || (p >= q && (bp > p || bp < q))) <==> k == g
  {
    var r := Ring(base, F);
    assert forall i, j :: 0 <= i < j < |F| ==> F[i] < F[j];
    assert forall i, j :: 0 <= i < j <= |F| ==> r[i] < r[j];
  }

  // Going round from the element after index s, index i has been passed before index j.
  predicate Passed(s: nat, j: nat, i: nat) {
    if s < j then s < i < j else i > s || i < j
  }

  ghost predicate TooSmall(mem: Memory, r: seq<int>, i: nat, n: nat) {
    i < |r| && r[i] in mem && mem[r[i]].size < n
  }

  // Indices of the ring elements base, F[0], F[1], ..., going round.
  function Next(m: nat, j: nat): nat {
    if j == m then 0 else j + 1
  }

  function Prior(m: nat, j: nat): nat {
    if j == 0 then m else j - 1
  }

  lemma LinkAt(mem: Memory, base: int, F: seq<int>, j: nat)
    requires Links(mem, base, F) && j <= |F|
    ensures Ring(base, F)[j] in mem && mem[Ring(base, F)[j]].ptr == Ring(base, F)[Next(|F|, j)]
    ensures Ring(base, F)[Next(|F|, j)] in mem && Ring(base, F)[Next(|F|, j)] == Ring(base, F)[j + 1]
  {
    assert Link(mem, Ring(base, F), j);
    assert Link(mem, Ring(base, F), Next(|F|, j));
  }

  // The search is back at its start exactly when everything else has been passed.
  lemma SameIndex(mem: Memory, base: int, F: seq<int>, t: Tiles, core: set<int>, s: nat, j: nat, n: nat)
    requires HeapInv(mem, base, F, t, core) && s <= |F| && j <= |F| && TooSmall(mem, Ring(base, F), j, n)
    requires forall i :: 0 <= i <= |F| && Passed(s, j, i) ==> TooSmall(mem, Ring(base, F), i, n)
    ensures Ring(base, F)[j] == Ring(base, F)[s] <==> j == s
    ensures j == s ==> forall a :: a in F ==> t[a] < n
    ensures j != s ==> forall i :: 0 <= i <= |F| && Passed(s, Next(|F|, j), i) ==> TooSmall(mem, Ring(base, F), i, n)
  {
    RingDistinct(base, F, t);
    if j == s {
      forall a | a in F ensures t[a] < n {
        var i := RingIndex(base, F, a);
        assert i == s || Passed(s, j, i);
      }
    }
  }

  // malloc has gone from index s to p, at index j, and found only small blocks.
  ghost predicate Searching(mem: Memory, base: int, F: seq<int>, n: nat, s: nat, j: nat, prevp: int, p: int) {
    && s <= |F| && j <= |F| && p == Ring(base, F)[j] && prevp == Ring(base, F)[Prior(|F|, j)] && p in mem
    && forall i :: 0 <= i <= |F| && Passed(s, j, i) ==> TooSmall(mem, Ring(base, F), i, n)
  }

  function Left(m: nat, s: nat, j: nat): int {
    if s < j then m - j + s + 1 else s - j + 1
  }

  lemma SearchStart(mem: Memory, base: int, F: seq<int>, n: nat, s: nat)
    requires Links(mem, base, F) && s <= |F|
    ensures var p := Ring(base, F)[s];
      p in mem && mem[p].ptr in mem && Searching(mem, base, F, n, s, Next(|F|, s), p, mem[p].ptr)
  {
    LinkAt(mem, base, F, s);
  }

  lemma SearchNext(mem: Memory, base: int, F: seq<int>, t: Tiles, core: set<int>, n: nat, s: nat, j: nat, prevp: int, p: int)
    requires HeapInv(mem, base, F, t, core) && Searching(mem, base, F, n, s, j, prevp, p) && mem[p].size < n
    ensures p == Ring(base, F)[s] <==> j == s
    ensures j == s ==> forall a :: a in F ==> a in t && t[a] < n
    ensures j != s ==> mem[p].ptr in mem && Searching(mem, base, F, n, s, Next(|F|, j), p, mem[p].ptr)
    ensures j != s ==> 0 <= Left(|F| + 1, s, Next(|F|, j)) < Left(|F| + 1, s, j)
  {
    SameIndex(mem, base, F, t, core, s, j, n);
    LinkAt(mem, base, F, j);
    hide HeapInv;
  }

  lemma SearchFound(mem: Memory, base: int, F: seq<int>, n: nat, s: nat, j: nat, prevp: int, p: int)
    requires base in mem && mem[base].size == 0 && Searching(mem, base, F, n, s, j, prevp, p) && 0 < n <= mem[p].size
    ensures 0 < j <= |F| && p == F[j - 1] && prevp == Ring(base, F)[j - 1]
  {
  }

  // ---------- requests ----------

  // nunits, in 32-bit arithmetic.
  function NUnits(nbytes: nat): nat {
    (nbytes + UNIT - 1) % 0x1_0000_0000 / UNIT + 1
  }

  /** The units after the header hold the request exactly when the rounding up does not wrap. */
  lemma EnoughUnits(nbytes: nat)
    requires nbytes < 0x1_0000_0000
    ensures (NUnits(nbytes) - 1) * UNIT >= nbytes <==> nbytes + UNIT - 1 < 0x1_0000_0000
    ensures nbytes + UNIT - 1 < 0x1_0000_0000 ==> (NUnits(nbytes) - 2) * UNIT < nbytes || nbytes == 0
  {
  }

  // nu in morecore.
  function CoreUnits(n: nat): (nu: nat)
    ensures nu >= n && nu >= MIN_CORE && (nu == n || nu == MIN_CORE)
  {
    if n < MIN_CORE then MIN_CORE else n
  }

  // What the int parameter of sbrk makes of nu * sizeof(Header).
  function SbrkArgument(nu: nat): int {
    var bytes := nu * UNIT % 0x1_0000_0000;
    if bytes < 0x8000_0000 then bytes else bytes - 0x1_0000_0000
  }

  // The size of a process after growproc(n) with n <= 0: deallocuvm leaves a size that wraps alone.
  function Shrunk(sz: nat, n: int): nat {
    var newsz := (sz + n) % 0x1_0000_0000;
    if newsz >= sz then sz else newsz
  }

  /** Below 2 GB morecore asks for the memory it needs; from there on the argument is not positive, so
      the process does not grow, and yet sbrk answers with an address unless nothing is left of the process. */
  lemma SbrkExactly(nbytes: nat, sz: nat)
    requires nbytes < 0x1_0000_0000 && sz < 0x8000_0000
    ensures var nu := CoreUnits(NUnits(nbytes)); var n := SbrkArgument(nu);
      && (nu * UNIT < 0x8000_0000 <==> n > 0)
      && (nu * UNIT < 0x8000_0000 <==> n == nu * UNIT)
      && (n <= 0 ==> Shrunk(sz, n) <= sz && (Shrunk(sz, n) == 0 <==> sz == 0 || sz == -n))
  {
    var nu := CoreUnits(NUnits(nbytes));
    assert nu * UNIT <= 0x1_0000_0000;
  }

  // ---------- the allocator ----------

  const NULL: int := 0

  class Heap {
    const base: int          // &base, as a unit address
    var freep: int
    var mem: Memory          // the headers
    var brk: int             // first unit above the memory obtained so far
    ghost var F: seq<int>    // the free blocks in ring order
    ghost var tiles: Tiles
    ghost var core: set<int>

    ghost predicate Valid()
      reads this
    {
      && NULL < base < brk && (forall u :: u in core ==> u < brk)
      && if freep == NULL then F == [] && tiles == map[] && core == {}
         else HeapInv(mem, base, F, tiles, core) && (freep == base || freep in F)
    }

    ghost function Held(): Tiles
      reads this
    {
      Live(F, tiles)
    }

    constructor (b: int, top: int)
      requires NULL < b < top
      ensures Valid() && freep == NULL && base == b && brk == top && Held() == map[]
    {
      base, brk, freep := b, top, NULL;
      mem, F, tiles, core := map[], [], map[], {};
    }

    // The loop of free: the ring element behind which bp belongs.
    method FindPlace(bp: int) returns (p: int, ghost k: nat)
      requires Valid() && freep != NULL && bp in Held()
      ensures Gap(base, F, k, bp) && p == Ring(base, F)[k]
    {
      p := freep;
      k := RingIndex(base, F, p);
      ghost var g := GapExists(base, F, tiles, bp);
      while !(bp > p && bp < mem[p].ptr)
        invariant k <= |F| && p == Ring(base, F)[k] && Link(mem, Ring(base, F), k)
        decreases if k <= g then g - k else |F| + 1 - k + g
      {
        GapOnly(base, F, tiles, bp, g, k);
        if p >= mem[p].ptr && (bp > p || bp < mem[p].ptr) {
          return;
        }
        p := mem[p].ptr;
        k := if k == |F| then 0 else k + 1;
      }
      GapOnly(base, F, tiles, bp, g, k);
    }

    /** free: exactly the block bp stops being held, the memory stays tiled, and the ring stays in
        address order with no two free blocks touching. */
    method Free(bp: int)
      requires Valid() && freep != NULL && bp in Held()
      modifies this
      ensures Valid() && freep != NULL
      ensures Held() == old(Held()) - {bp} && core == old(core) && brk == old(brk)
      ensures exists a :: a in F && a in tiles && tiles[a] >= old(tiles[bp])
    {
      var p, k := FindPlace(bp);
      ghost var F', t' := FreeInv(mem, base, F, tiles, core, k, bp);
      hide HeapInv, Live, Ring, Gap;
      Join(bp, p);
      hide JoinLeft, JoinRight;
      F, tiles := F', t';
      freep := p;
    }

    // The two ifs of free.
    method Join(bp: int, p: int)
      requires bp in mem && p in mem && mem[p].ptr in mem
      modifies this`mem
      ensures mem == JoinLeft(JoinRight(old(mem), bp, old(mem[p].ptr)), bp, p)
    {
      var q := mem[p].ptr;
      if bp + mem[bp].size == q {
        mem := mem[bp := Header(mem[q].ptr, mem[bp].size + mem[q].size)];
      } else {
        mem := mem[bp := mem[bp].(ptr := q)];
      }
      if p + mem[p].size == bp {
        mem := mem[p := Header(mem[bp].ptr, mem[p].size + mem[bp].size)];
      } else {
        mem := mem[p := mem[p].(ptr := bp)];
      }
    }

    /** morecore: `grant` is what sbrk answers, -1 or an address above all memory obtained so far. */
    method Morecore(n: nat, grant: int) returns (r: int)
      requires Valid() && freep != NULL && (grant == -1 || grant >= brk)
      modifies this
      ensures Valid() && freep != NULL && Held() == old(Held())
      ensures r == if grant == -1 then NULL else freep
      ensures if grant == -1 then core == old(core) && mem == old(mem) && F == old(F) && tiles == old(tiles) && brk == old(brk)
        else core == old(core) + Region(grant, CoreUnits(n)) && brk == grant + CoreUnits(n)
             && exists a :: a in F && a in tiles && tiles[a] >= n
    {
      var nu := CoreUnits(n);
      if grant == -1 {
        return NULL;
      }
      GrowInv(mem, base, F, tiles, core, grant, nu);
      mem := mem[grant := Header(NULL, nu)];
      tiles, core, brk := tiles[grant := nu], core + Region(grant, nu), grant + nu;
      assert Held() == old(Held())[grant := nu];
      Free(grant);
      assert Held() == old(Held());
      r := freep;
    }

    // An exact fit: unlink p, whose predecessor in the ring is prevp.
    method Unlink(p: int, prevp: int, ghost k: nat)
      requires Valid() && freep != NULL && k < |F| && p == F[k] && prevp == Ring(base, F)[k]
      modifies this`mem, this`freep, this`F
      ensures Valid() && freep == prevp && F == Dropped(old(F), k)
    {
      TakeInv(mem, base, F, tiles, core, k);
      assert k > 0 ==> prevp == Dropped(F, k)[k - 1];
      mem := mem[prevp := mem[prevp].(ptr := mem[p].ptr)];
      F := Dropped(F, k);
      freep := prevp;
    }

    // A larger block: cut its last n units off.
    method Carve(p: int, prevp: int, n: nat, ghost k: nat) returns (bp: int)
      requires Valid() && freep != NULL && k < |F| && p == F[k] && prevp == Ring(base, F)[k] && 0 < n < mem[p].size
      modifies this`mem, this`freep, this`tiles
      ensures Valid() && freep == prevp && bp == p + old(mem[p].size) - n
      ensures p in old(tiles) && n < old(tiles)[p] == old(mem[p].size) && tiles == Split(old(tiles), p, n)
    {
      CarveInv(mem, base, F, tiles, core, k, n);
      assert prevp == base || prevp == F[k - 1];
      hide HeapInv, Ring, Split;
      bp := p + mem[p].size - n;
      ghost var mem' := Carved(mem, p, n);
      mem := mem[p := mem[p].(size := mem[p].size - n)];
      mem := mem[bp := Header(if bp in mem then mem[bp].ptr else NULL, n)];
      assert mem == mem';
      tiles := Split(tiles, p, n);
      freep := prevp;
    }

    // Take n units from the free block p, whose predecessor in the ring is prevp.
    method Take(p: int, prevp: int, n: nat, ghost k: nat) returns (bp: int)
      requires Valid() && freep != NULL && k < |F| && p == F[k] && prevp == Ring(base, F)[k] && 0 < n <= mem[p].size
      modifies this`mem, this`freep, this`F, this`tiles
      ensures Valid() && freep == prevp != NULL && bp > NULL
      ensures bp !in old(Held()) && Held() == old(Held())[bp := n]
    {
      bp := p;
      if mem[p].size == n {
        TakeLive(base, F, tiles, k);
        Unlink(p, prevp, k);
      } else {
        CarveLive(mem, base, F, tiles, core, k, n);
        bp := Carve(p, prevp, n, k);
      }
    }

    // First call of malloc: a ring of base alone.
    method Init()
      requires Valid() && freep == NULL
      modifies this`mem, this`freep
      ensures Valid() && freep == base && Held() == old(Held())
    {
      freep := base;
      mem := mem[base := Header(base, 0)];
    }

    // No free block has n units.
    ghost predicate NoFit(n: nat)
      reads this
    {
      forall a :: a in F ==> a in tiles && tiles[a] < n
    }

    // The loop of malloc up to a fit or back to freep, where malloc asks for more memory.
    method Search(n: nat) returns (found: bool, p: int, prevp: int, ghost k: nat)
      requires Valid() && freep != NULL && n > 0
      ensures found ==> k < |F| && p == F[k] && prevp == Ring(base, F)[k] && p in mem && mem[p].size >= n
      ensures !found ==> p == freep && NoFit(n)
    {
      hide Tiled, Headers, Links, Ascending, Searching, Ring;
      prevp, found, k := freep, true, 0;
      ghost var s := RingIndex(base, F, freep);
      ghost var j := Next(|F|, s);
      SearchStart(mem, base, F, n, s);
      p := mem[prevp].ptr;
      while mem[p].size < n
        invariant found && p in mem && Searching(mem, base, F, n, s, j, prevp, p)
        decreases Left(|F| + 1, s, j)
      {
        SearchNext(mem, base, F, tiles, core, n, s, j, prevp, p);
        if p == freep {
          found := false;
          return;
        }
        prevp, p := p, mem[p].ptr;
        j := Next(|F|, j);
      }
      SearchFound(mem, base, F, n, s, j, prevp, p);
      k := j - 1;
    }

    /** malloc: a block of exactly the rounded-up size that was not held before, or NULL. NULL comes
        back only if no free block is large enough and sbrk fails. sbrk is asked at most once, and
        only if no free block fits. */
    method Malloc(nbytes: nat, grant: int) returns (r: int, calls: nat)
      requires Valid() && nbytes < 0x1_0000_0000
      requires grant == -1 || (grant >= brk && SbrkArgument(CoreUnits(NUnits(nbytes))) > 0)
      modifies this
      ensures Valid() && freep != NULL && calls <= 1
      ensures calls == 1 ==> old(NoFit(NUnits(nbytes)))
      ensures r == NULL ==> Held() == old(Held()) && calls == 1 && grant == -1
      ensures r != NULL ==> r - 1 !in old(Held()) && Held() == old(Held())[r - 1 := NUnits(nbytes)]
      ensures if calls == 0 || grant == -1 then core == old(core) && brk == old(brk)
        else core == old(core) + Region(grant, CoreUnits(NUnits(nbytes))) && brk == grant + CoreUnits(NUnits(nbytes))
    {
      hide HeapInv, Live, Ring, Region;
      var n := NUnits(nbytes);
      if freep == NULL { Init(); }
      calls := 0;
      var found, p, prevp, k := Search(n);
      while !found
        invariant Valid() && freep != NULL && Held() == old(Held()) && calls <= 1
        invariant found ==> 0 <= k < |F| && p == F[k] && prevp == Ring(base, F)[k] && p in mem && mem[p].size >= n
        invariant calls == 1 ==> found && grant != -1 && old(NoFit(n))
        invariant if calls == 0 then core == old(core) && brk == old(brk) && F == old(F) && tiles == old(tiles)
          else core == old(core) + Region(grant, CoreUnits(n)) && brk == grant + CoreUnits(n)
        invariant !found ==> old(NoFit(n))
        decreases !found
      {
        calls := calls + 1;
        var q := Morecore(n, grant);
        if q == NULL { return NULL, calls; }
        found, p, prevp, k := Search(n);
      }
      var bp := Take(p, prevp, n, k);
      r := bp + 1;
    }
  }

  lemma GrowInv(mem: Memory, base: int, F: seq<int>, t: Tiles, core: set<int>, p: int, n: nat)
    requires HeapInv(mem, base, F, t, core) && n > 0 && base < p && forall u :: u in core ==> u < p
    ensures HeapInv(mem[p := Header(NULL, n)], base, F, t[p := n], core + Region(p, n)) && p !in t && p !in F
  {
    GrowTiled(t, core, p, n);
    var mem' := mem[p := Header(NULL, n)];
    forall k | 0 <= k <= |F| ensures Link(mem', Ring(base, F), k) {
      assert Link(mem, Ring(base, F), k);
    }
  }
}
