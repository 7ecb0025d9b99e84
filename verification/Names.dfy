/** Directories and link counts: dirlookup, dirlink, create, link, unlink and the freeing of inodes in
    iput (fs.c, sysfile.c). Each system call is one atomic operation. */
module Names {
  import opened Wrappers

  const DIRSIZ: nat := 14
  const ROOT: nat := 1

  datatype Kind = Free | Dir | File | Dev
  datatype Dirent = Dirent(inum: nat, name: string)
  datatype Inode = Inode(kind: Kind, nlink: int, entries: seq<Dirent>)

  // refs counts the references that open files and current directories hold on an inode.
  datatype Fs = Fs(inodes: seq<Inode>, refs: seq<nat>)

  const NO_ENTRY: Dirent := Dirent(0, "")

  // Only the first DIRSIZ characters of a name are stored and compared.
  function Key(name: string): string {
    if |name| <= DIRSIZ then name else name[..DIRSIZ]
  }

  const NUL: char := '\0'

  // The i-th character of the C string.
  function CharAt(s: string, i: nat): char {
    if i < |s| then s[i] else NUL
  }

  /** namecmp: strncmp over DIRSIZ characters finds no difference exactly between names with the same key. */
  lemma KeyExactly(a: string, b: string)
    requires NUL !in a && NUL !in b
    ensures Key(a) == Key(b) <==> forall i: nat :: i < DIRSIZ ==> CharAt(a, i) == CharAt(b, i)
  {
    if forall i: nat :: i < DIRSIZ ==> CharAt(a, i) == CharAt(b, i) {
      KeyLength(a, b);
      KeyLength(b, a);
      assert forall i: nat :: i < |Key(a)| ==> Key(a)[i] == CharAt(a, i) && Key(b)[i] == CharAt(b, i);
    } else {
      var i: nat :| i < DIRSIZ && CharAt(a, i) != CharAt(b, i);
      assert i < |Key(a)| && i < |Key(b)| ==> Key(a)[i] == a[i] && Key(b)[i] == b[i];
    }
  }

  lemma KeyLength(a: string, b: string)
    requires NUL !in a && forall i: nat :: i < DIRSIZ ==> CharAt(a, i) == CharAt(b, i)
    ensures |Key(a)| <= |Key(b)|
  {
    if |b| < DIRSIZ { assert CharAt(a, |b|) == NUL; }
  }

  // ---------- directory contents ----------

  predicate Matches(e: Dirent, name: string) {
    e.inum != 0 && e.name == Key(name)
  }

  // The slot that dirlookup finds, from slot k on.
  function Lookup(es: seq<Dirent>, name: string, k: nat): (r: Option<nat>)
    requires k <= |es|
    ensures r.Some? ==> k <= r.value < |es| && Matches(es[r.value], name) && forall j :: k <= j < r.value ==> !Matches(es[j], name)
    ensures r == None ==> forall j :: k <= j < |es| ==> !Matches(es[j], name)
    decreases |es| - k
  {
    if k == |es| then None else if Matches(es[k], name) then Some(k) else Lookup(es, name, k + 1)
  }

  // The slot that dirlink writes to: the first empty one, or one past the end.
  function Vacant(es: seq<Dirent>, k: nat): (r: nat)
    requires k <= |es|
    ensures k <= r <= |es| && (r < |es| ==> es[r].inum == 0) && forall j :: k <= j < r ==> es[j].inum != 0
    decreases |es| - k
  {
    if k == |es| || es[k].inum == 0 then k else Vacant(es, k + 1)
  }

  function Put(es: seq<Dirent>, k: nat, e: Dirent): seq<Dirent>
    requires k <= |es|
  {
    if k < |es| then es[k := e] else es + [e]
  }

  predicate DirEmpty(es: seq<Dirent>) {
    forall k :: 2 <= k < |es| ==> es[k].inum == 0
  }

  // ---------- what the link count counts ----------

  predicate Linked(fs: Fs, d: nat) {
    d < |fs.inodes| && fs.inodes[d].kind == Dir && fs.inodes[d].nlink > 0
  }

  // Entry k of directory d is a link to inode i: d is linked, and the entry is not ".".
  predicate Counts(fs: Fs, d: nat, k: nat, i: nat) {
    Linked(fs, d) && k < |fs.inodes[d].entries| && fs.inodes[d].entries[k].inum == i && fs.inodes[d].entries[k].name != "."
  }

  /** All links to inode i. */
  ghost function Links(fs: Fs, i: nat): set<(nat, nat)> {
    set d: nat, k: nat | d < |fs.inodes| && k < |fs.inodes[d].entries| && Counts(fs, d, k, i) :: (d, k)
  }

  // ---------- the invariant ----------

  // A linked directory starts with its two dots, and its names are distinct.
  ghost predicate DirOk(fs: Fs, d: nat)
    requires d < |fs.inodes|
  {
    var es := fs.inodes[d].entries;
    && |es| >= 2 && es[0] == Dirent(d, ".") && es[1].name == ".." && es[1].inum != 0
    && (forall k :: 0 <= k < |es| ==> es[k].inum < |fs.inodes|)
    && (forall j, k :: 0 <= j < k < |es| && es[j].inum != 0 && es[k].inum != 0 ==> es[j].name != es[k].name)
  }

  // Entry k of d names a subdirectory of d.
  ghost predicate Sub(fs: Fs, d: nat, k: nat, q: nat) {
    Linked(fs, d) && 2 <= k < |fs.inodes[d].entries| && fs.inodes[d].entries[k].inum == q && q != 0
    && q < |fs.inodes| && fs.inodes[q].kind == Dir
  }

  ghost function Up(fs: Fs, q: nat): nat {
    if q < |fs.inodes| && |fs.inodes[q].entries| >= 2 then fs.inodes[q].entries[1].inum else 0
  }

  /** ".." and the entry in the parent name each other. */
  ghost predicate Tree(fs: Fs) {
    && (forall d, k, q :: Sub(fs, d, k, q) ==> q != ROOT && Up(fs, q) == d)
    && (forall d, k, l, q :: Sub(fs, d, k, q) && Sub(fs, d, l, q) ==> k == l)
    && (forall q {:trigger HasParent(fs, q)} :: Linked(fs, q) && q != ROOT ==> HasParent(fs, q))
  }

  ghost predicate HasParent(fs: Fs, q: nat) {
    Linked(fs, Up(fs, q)) && exists k :: Sub(fs, Up(fs, q), k, q)
  }

  ghost predicate RootOk(fs: Fs) {
    |fs.refs| == |fs.inodes| && Linked(fs, ROOT) && Up(fs, ROOT) == ROOT && fs.inodes[0].kind == Free
  }

  ghost predicate DirsOk(fs: Fs) {
    forall d {:trigger DirOk(fs, d)} :: Linked(fs, d) ==> DirOk(fs, d)
  }

  /** nlink is the number of links. */
  ghost predicate CountsOk(fs: Fs) {
    forall i: nat :: 0 < i < |fs.inodes| ==> fs.inodes[i].nlink == |Links(fs, i)|
  }

  // An inode is free exactly when nothing links to it and nobody holds it.
  ghost predicate FreeOk(fs: Fs, i: nat)
    requires i < |fs.inodes| == |fs.refs|
  {
    && (fs.inodes[i].kind == Free <==> fs.inodes[i].nlink == 0 && fs.refs[i] == 0)
    && (fs.inodes[i].kind == Free ==> fs.inodes[i].entries == [])
  }

  ghost predicate FreesOk(fs: Fs) {
    |fs.refs| == |fs.inodes| && forall i :: 0 < i < |fs.inodes| ==> FreeOk(fs, i)
  }

  predicate IsDir(fs: Fs, d: nat) {
    d < |fs.inodes| && fs.inodes[d].kind == Dir
  }

  // A directory that has been unlinked but is still held keeps its dots, and nothing else.
  ghost predicate DeadDir(fs: Fs, d: nat)
    requires d < |fs.inodes|
  {
    var es := fs.inodes[d].entries;
    && |es| >= 2 && es[0] == Dirent(d, ".") && es[1].name == ".." && 0 < es[1].inum < |fs.inodes| && es[1].inum != d
    && DirEmpty(es)
  }

  ghost predicate DeadOk(fs: Fs) {
    forall d {:trigger DeadDir(fs, d)} :: IsDir(fs, d) && !Linked(fs, d) ==> DeadDir(fs, d)
  }

  ghost predicate Inv(fs: Fs) {
    RootOk(fs) && DirsOk(fs) && CountsOk(fs) && Tree(fs) && FreesOk(fs) && DeadOk(fs)
  }

  /** The image that mkfs writes, with a root directory only. */
  function Image(n: nat): Fs
    requires n > ROOT
  {
    Fs(seq(n, i => if i == ROOT then Inode(Dir, 1, [Dirent(ROOT, "."), Dirent(ROOT, "..")]) else Inode(Kind.Free, 0, [])),
       seq(n, _ => 0))
  }

  lemma ImageInv(n: nat)
    requires n > ROOT
    ensures Inv(Image(n))
  {
    var fs := Image(n);
    assert forall d: nat :: Linked(fs, d) ==> d == ROOT;
    assert Counts(fs, ROOT, 1, ROOT);
    assert Links(fs, ROOT) == {(ROOT, 1)};
    forall i: nat | 0 < i < n && i != ROOT ensures Links(fs, i) == {} { }
  }

  /** No link in a linked directory names a free inode. */
  lemma NoDangling(fs: Fs, d: nat, k: nat)
    requires Inv(fs) && Linked(fs, d) && k < |fs.inodes[d].entries| && fs.inodes[d].entries[k].inum != 0
    ensures fs.inodes[d].entries[k].inum < |fs.inodes| && fs.inodes[fs.inodes[d].entries[k].inum].kind != Free
  {
    var i := fs.inodes[d].entries[k].inum;
    assert DirOk(fs, d) && FreeOk(fs, i);
    if fs.inodes[d].entries[k].name != "." {
      assert (d, k) in Links(fs, i);
    } else {
      assert k == 0;
    }
  }

  // ---------- the operations ----------

  function SetInode(fs: Fs, i: nat, x: Inode): Fs
    requires i < |fs.inodes|
  {
    fs.(inodes := fs.inodes[i := x])
  }

  // dirlink, once the name is known to be absent.
  function AddEntry(fs: Fs, d: nat, name: string, i: nat): Fs
    requires d < |fs.inodes|
  {
    var es := fs.inodes[d].entries;
    SetInode(fs, d, fs.inodes[d].(entries := Put(es, Vacant(es, 0), Dirent(i, Key(name)))))
  }

  function AddLinks(fs: Fs, i: nat, n: int): Fs
    requires i < |fs.inodes|
  {
    SetInode(fs, i, fs.inodes[i].(nlink := fs.inodes[i].nlink + n))
  }

  // iget
  function Hold(fs: Fs, i: nat): Fs
    requires i < |fs.refs|
  {
    fs.(refs := fs.refs[i := fs.refs[i] + 1])
  }

  /** iput: dropping the last reference to an inode without links frees it and its contents. */
  function Drop(fs: Fs, i: nat): Fs
    requires i < |fs.inodes| == |fs.refs| && fs.refs[i] > 0
  {
    var fs' := fs.(refs := fs.refs[i := fs.refs[i] - 1]);
    if fs.inodes[i].nlink == 0 && fs.refs[i] == 1 then SetInode(fs', i, Inode(Kind.Free, 0, [])) else fs'
  }

  predicate Absent(fs: Fs, d: nat, name: string) {
    d < |fs.inodes| && Lookup(fs.inodes[d].entries, name, 0) == None
  }

  function LinkFs(fs: Fs, i: nat, d: nat, name: string): Fs
    requires i < |fs.inodes| && d < |fs.inodes|
  {
    AddEntry(AddLinks(fs, i, 1), d, name, i)
  }

  // create of a new inode i of the given kind; the caller gets a reference to it.
  function CreateFs(fs: Fs, d: nat, name: string, kind: Kind, i: nat): Fs
    requires d < |fs.inodes| && i < |fs.inodes| == |fs.refs|
  {
    var fs1 := SetInode(Hold(fs, i), i, Inode(kind, 1, []));
    var fs2 := if kind == Dir then AddDots(fs1, i, d) else fs1;
    AddEntry(fs2, d, name, i)
  }

  // "." and ".." of a new directory, and the link that ".." is.
  function AddDots(fs: Fs, i: nat, d: nat): Fs
    requires i < |fs.inodes| && d < |fs.inodes|
  {
    AddLinks(SetInode(fs, i, fs.inodes[i].(kind := Dir, entries := [Dirent(i, "."), Dirent(d, "..")])), d, 1)
  }

  // unlink of entry k of directory d, while the caller holds the inode q that it names.
  function ClearFs(fs: Fs, d: nat, k: nat): Fs
    requires d < |fs.inodes| && k < |fs.inodes[d].entries| && fs.inodes[d].entries[k].inum < |fs.inodes|
  {
    var q := fs.inodes[d].entries[k].inum;
    var fs1 := SetInode(fs, d, fs.inodes[d].(entries := fs.inodes[d].entries[k := NO_ENTRY]));
    AddLinks(if fs.inodes[q].kind == Dir then AddLinks(fs1, d, -1) else fs1, q, -1)
  }

  // ---------- how links move ----------

  // Slot k of directory d has changed; every other entry is as it was, and the same directories are linked.
  ghost predicate OneSlot(fs: Fs, fs': Fs, d: nat, k: nat) {
    && |fs'.inodes| == |fs.inodes| && d < |fs.inodes| && k <= |fs.inodes[d].entries|
    && (forall x: nat :: Linked(fs', x) <==> Linked(fs, x))
    && (forall x :: 0 <= x < |fs.inodes| && x != d ==> fs'.inodes[x].entries == fs.inodes[x].entries)
    && k < |fs'.inodes[d].entries| && |fs'.inodes[d].entries| >= |fs.inodes[d].entries|
    && fs'.inodes[d].entries == Put(fs.inodes[d].entries, k, fs'.inodes[d].entries[k])
  }

  lemma OneSlotLinks(fs: Fs, fs': Fs, d: nat, k: nat, i: nat)
    requires OneSlot(fs, fs', d, k) && i != 0
    ensures Links(fs', i) == (Links(fs, i) - {(d, k)}) + if Counts(fs', d, k, i) then {(d, k)} else {}
  {
    forall x: nat, j: nat | !(x == d && j == k) ensures Counts(fs', x, j, i) <==> Counts(fs, x, j, i) { }
  }

  // A new entry is one more link to the inode it names.
  lemma AddedLinks(fs: Fs, fs': Fs, d: nat, k: nat, i: nat, j: nat)
    requires OneSlot(fs, fs', d, k) && Linked(fs, d) && j != 0
    requires k < |fs.inodes[d].entries| ==> fs.inodes[d].entries[k].inum == 0
    requires fs'.inodes[d].entries[k].inum == i && fs'.inodes[d].entries[k].name != "."
    ensures |Links(fs', j)| == |Links(fs, j)| + if j == i then 1 else 0
  {
    OneSlotLinks(fs, fs', d, k, j);
    assert (d, k) !in Links(fs, j);
  }

  // Inode i, which is no directory, has gained one link, in slot k of directory d.
  ghost predicate Gained(fs: Fs, fs': Fs, d: nat, k: nat, i: nat, name: string) {
    && OneSlot(fs, fs', d, k) && fs'.inodes[d].entries[k] == Dirent(i, Key(name)) && |fs'.refs| == |fs.refs|
    && (forall x :: 0 <= x < |fs.inodes| ==> (fs'.inodes[x].kind == Dir <==> fs.inodes[x].kind == Dir))
    && (forall x :: 0 <= x < |fs.inodes| ==> fs'.inodes[x].nlink == fs.inodes[x].nlink + if x == i then 1 else 0)
    && (forall x :: 0 <= x < |fs.inodes| && x < |fs.refs| && x != i ==>
          fs'.inodes[x].kind == fs.inodes[x].kind && fs'.refs[x] == fs.refs[x])
    && i < |fs.inodes| && fs'.inodes[i].kind != Free && fs'.inodes[i].kind != Dir && fs'.inodes[i].nlink > 0
  }

  lemma LinkGains(fs: Fs, i: nat, d: nat, name: string)
    requires i < |fs.inodes| && fs.inodes[i].kind != Dir && fs.inodes[i].kind != Free && d < |fs.inodes|
    requires fs.inodes[i].nlink >= 0
    ensures Gained(fs, LinkFs(fs, i, d, name), d, Vacant(fs.inodes[d].entries, 0), i, name)
  {
  }

  lemma CreateGains(fs: Fs, d: nat, name: string, kind: Kind, i: nat)
    requires i < |fs.inodes| == |fs.refs| && d < |fs.inodes| && d != i && kind != Dir && kind != Free
    requires fs.inodes[i] == Inode(Kind.Free, 0, [])
    ensures Gained(fs, CreateFs(fs, d, name, kind, i), d, Vacant(fs.inodes[d].entries, 0), i, name)
  {
  }

  lemma GainedCounts(fs: Fs, fs': Fs, i: nat, d: nat, k: nat, name: string)
    requires CountsOk(fs) && Linked(fs, d) && Gained(fs, fs', d, k, i, name) && Key(name) != "."
    requires k < |fs.inodes[d].entries| ==> fs.inodes[d].entries[k].inum == 0
    ensures CountsOk(fs')
  {
    forall j: nat | 0 < j < |fs'.inodes| ensures fs'.inodes[j].nlink == |Links(fs', j)| {
      AddedLinks(fs, fs', d, k, i, j);
    }
  }

  lemma GainedFree(fs: Fs, fs': Fs, i: nat, d: nat, k: nat, name: string, x: nat)
    requires Gained(fs, fs', d, k, i, name) && Linked(fs, d) && x < |fs.inodes| == |fs.refs| && FreeOk(fs, x)
    ensures FreeOk(fs', x)
  {
  }

  lemma GainedInv(fs: Fs, fs': Fs, i: nat, d: nat, name: string)
    requires Inv(fs) && i > 0 && Linked(fs, d) && Absent(fs, d, name)
    requires Gained(fs, fs', d, Vacant(fs.inodes[d].entries, 0), i, name)
    ensures Inv(fs')
  {
    var k := Vacant(fs.inodes[d].entries, 0);
    AddedSlot(fs, d, name);
    AddedDir(fs, fs', d, name, i);
    GainedRest(fs, fs', i, d, k, name);
    hide DirsOk, DeadOk, RootOk, FreesOk, Vacant;
    GainedCounts(fs, fs', i, d, k, name);
    SameTree(fs, fs', d, k);
  }

  lemma GainedRest(fs: Fs, fs': Fs, i: nat, d: nat, k: nat, name: string)
    requires RootOk(fs) && FreesOk(fs) && DeadOk(fs) && Linked(fs, d) && 2 <= k && 0 < i && Gained(fs, fs', d, k, i, name)
    ensures RootOk(fs') && FreesOk(fs') && DeadOk(fs')
  {
    forall x | 0 < x < |fs'.inodes| ensures FreeOk(fs', x) {
      assert FreeOk(fs, x);
      GainedFree(fs, fs', i, d, k, name, x);
    }
    forall x | IsDir(fs', x) && !Linked(fs', x) ensures DeadDir(fs', x) {
      assert IsDir(fs, x) && !Linked(fs, x) && DeadDir(fs, x);
    }
  }

  /** link keeps the invariant. */
  lemma LinkInv(fs: Fs, i: nat, d: nat, name: string)
    requires Inv(fs) && 0 < i < |fs.inodes| && fs.inodes[i].kind != Dir && fs.inodes[i].kind != Free
    requires Linked(fs, d) && Absent(fs, d, name)
    ensures Inv(LinkFs(fs, i, d, name))
  {
    assert fs.inodes[i].nlink == |Links(fs, i)|;
    LinkGains(fs, i, d, name);
    GainedInv(fs, LinkFs(fs, i, d, name), i, d, name);
  }

  // dirlink never writes over the dots, and the new name is not one of them.
  lemma AddedSlot(fs: Fs, d: nat, name: string)
    requires RootOk(fs) && DirsOk(fs) && Linked(fs, d) && Absent(fs, d, name)
    ensures Vacant(fs.inodes[d].entries, 0) >= 2 && Key(name) != "." && Key(name) != ".."
  {
    assert DirOk(fs, d);
    var es := fs.inodes[d].entries;
    assert d != 0;
    assert !Matches(es[0], name) && !Matches(es[1], name);
    assert Vacant(es, 0) == Vacant(es, 1) == Vacant(es, 2);
  }

  lemma AddedDir(fs: Fs, fs': Fs, d: nat, name: string, i: nat)
    requires RootOk(fs) && DirsOk(fs) && Linked(fs, d) && Absent(fs, d, name) && 0 < i < |fs.inodes|
    requires var k := Vacant(fs.inodes[d].entries, 0);
      OneSlot(fs, fs', d, k) && fs'.inodes[d].entries[k] == Dirent(i, Key(name))
    ensures DirsOk(fs')
  {
    AddedSlot(fs, d, name);
    var k := Vacant(fs.inodes[d].entries, 0);
    forall x | Linked(fs', x) ensures DirOk(fs', x) {
      assert DirOk(fs, x);
      if x == d {
        forall j | 0 <= j < |fs.inodes[d].entries| && fs.inodes[d].entries[j].inum != 0
          ensures fs.inodes[d].entries[j].name != Key(name)
        {
          assert !Matches(fs.inodes[d].entries[j], name);
        }
      }
    }
  }

  // Changing an entry that names no directory before or after leaves the tree alone.
  lemma SameTree(fs: Fs, fs': Fs, d: nat, k: nat)
    requires Tree(fs) && OneSlot(fs, fs', d, k) && k >= 2
    requires forall x :: 0 <= x < |fs.inodes| ==> (fs'.inodes[x].kind == Dir <==> fs.inodes[x].kind == Dir)
    requires forall q: nat :: !Sub(fs, d, k, q) && !Sub(fs', d, k, q)
    ensures Tree(fs')
  {
    forall x: nat, j: nat, q: nat ensures Sub(fs', x, j, q) <==> Sub(fs, x, j, q) { }
    forall q: nat | Linked(fs, q) ensures Up(fs', q) == Up(fs, q) { }
    forall q | Linked(fs', q) && q != ROOT ensures HasParent(fs', q) {
      assert HasParent(fs, q);
      var j :| Sub(fs, Up(fs, q), j, q);
      assert Sub(fs', Up(fs', q), j, q);
    }
  }

  // ---------- create of a directory ----------

  lemma CreateDirSplits(fs: Fs, d: nat, name: string, i: nat)
    requires i < |fs.inodes| == |fs.refs| && d < |fs.inodes| && d != i
    ensures CreateFs(fs, d, name, Dir, i) == AddDots(CreateFs(fs, d, name, File, i), i, d)
  {
    assert CreateFs(fs, d, name, Dir, i).inodes == AddDots(CreateFs(fs, d, name, File, i), i, d).inodes;
  }

  // The dots of a new directory add one link, to its parent.
  lemma DotsLinks(fs: Fs, i: nat, d: nat, j: nat)
    requires i < |fs.inodes| && Linked(fs, d) && d != i && fs.inodes[i].kind == File && fs.inodes[i].entries == []
    requires fs.inodes[i].nlink > 0 && j != 0
    ensures Links(AddDots(fs, i, d), j) == Links(fs, j) + if j == d then {(i, 1)} else {}
    ensures (i, 1) !in Links(fs, j)
  {
    var fs' := AddDots(fs, i, d);
    forall x: nat, m: nat | !(x == i && m == 1) ensures Counts(fs', x, m, j) <==> Counts(fs, x, m, j) { }
    assert Counts(fs', i, 1, j) <==> j == d;
  }

  // Beyond the first slot no live entry is called ".".
  lemma NotDot(fs: Fs, d: nat, k: nat)
    requires RootOk(fs) && DirsOk(fs) && Linked(fs, d) && 0 < k < |fs.inodes[d].entries| && fs.inodes[d].entries[k].inum != 0
    ensures fs.inodes[d].entries[k].name != "."
  {
    assert DirOk(fs, d);
  }

  lemma DotsDirs(fs: Fs, i: nat, d: nat)
    requires RootOk(fs) && DirsOk(fs) && 0 < i < |fs.inodes| && Linked(fs, d) && d != i && fs.inodes[i].kind != Free
    ensures DirsOk(AddDots(fs, i, d))
  {
    var fs' := AddDots(fs, i, d);
    forall x | Linked(fs', x) && x != i ensures DirOk(fs', x) {
      assert DirOk(fs, x);
    }
  }

  lemma DotsFree(fs: Fs, i: nat, d: nat)
    requires FreesOk(fs) && i < |fs.inodes| && Linked(fs, d) && d != i && fs.inodes[i].nlink > 0
    ensures FreesOk(AddDots(fs, i, d))
  {
    var fs' := AddDots(fs, i, d);
    forall x | 0 < x < |fs'.inodes| ensures FreeOk(fs', x) {
      assert FreeOk(fs, x);
    }
  }

  lemma DotsTree(fs: Fs, i: nat, d: nat, k: nat)
    requires Tree(fs) && DirsOk(fs) && RootOk(fs) && i < |fs.inodes| && Linked(fs, d) && d != i && i != 0
    requires fs.inodes[i].kind == File && fs.inodes[i].entries == [] && fs.inodes[i].nlink > 0
    requires 2 <= k < |fs.inodes[d].entries| && Links(fs, i) == {(d, k)}
    ensures Tree(AddDots(fs, i, d))
  {
    var fs' := AddDots(fs, i, d);
    assert Counts(fs, d, k, i) by { assert (d, k) in Links(fs, i); }
    forall x: nat, m: nat, q: nat ensures Sub(fs', x, m, q) <==> Sub(fs, x, m, q) || (x == d && m == k && q == i) {
      if Sub(fs', x, m, q) && q == i {
        NotDot(fs, x, m);
        assert (x, m) in Links(fs, i);
      }
    }
    assert Sub(fs', d, k, i);
    forall q: nat | q < |fs.inodes| && q != i ensures Up(fs', q) == Up(fs, q) { }
    forall q | Linked(fs', q) && q != ROOT ensures HasParent(fs', q) {
      if q != i {
        assert HasParent(fs, q);
        var m :| Sub(fs, Up(fs, q), m, q);
        assert Sub(fs', Up(fs', q), m, q);
      }
    }
  }

  lemma DotsInv(fs: Fs, i: nat, d: nat, k: nat)
    requires Inv(fs) && 0 < i < |fs.inodes| && Linked(fs, d) && d != i
    requires fs.inodes[i].kind == File && fs.inodes[i].entries == [] && fs.inodes[i].nlink == 1
    requires 2 <= k < |fs.inodes[d].entries| && Counts(fs, d, k, i)
    ensures Inv(AddDots(fs, i, d))
  {
    var fs' := AddDots(fs, i, d);
    DotsRoot(fs, i, d);
    assert Tree(fs') by { OneLink(fs, d, k, i); DotsTree(fs, i, d, k); }
    DotsDirs(fs, i, d);
    DotsCounts(fs, i, d);
    DotsFree(fs, i, d);
  }

  lemma DotsRoot(fs: Fs, i: nat, d: nat)
    requires RootOk(fs) && DeadOk(fs) && 0 < i < |fs.inodes| && fs.inodes[i].kind == File && fs.inodes[i].nlink > 0 && Linked(fs, d)
    ensures RootOk(AddDots(fs, i, d)) && DeadOk(AddDots(fs, i, d))
  {
    var fs' := AddDots(fs, i, d);
    forall x | IsDir(fs', x) && !Linked(fs', x) ensures DeadDir(fs', x) {
      assert IsDir(fs, x) && !Linked(fs, x) && DeadDir(fs, x);
    }
  }

  lemma DotsCounts(fs: Fs, i: nat, d: nat)
    requires CountsOk(fs) && i < |fs.inodes| && Linked(fs, d) && d != i
    requires fs.inodes[i].kind == File && fs.inodes[i].entries == [] && fs.inodes[i].nlink > 0
    ensures CountsOk(AddDots(fs, i, d))
  {
    var fs' := AddDots(fs, i, d);
    forall j: nat | 0 < j < |fs'.inodes| ensures fs'.inodes[j].nlink == |Links(fs', j)| {
      DotsLinks(fs, i, d, j);
    }
  }

  lemma OneLink(fs: Fs, d: nat, k: nat, i: nat)
    requires CountsOk(fs) && 0 < i < |fs.inodes| && fs.inodes[i].nlink == 1 && Counts(fs, d, k, i)
    ensures Links(fs, i) == {(d, k)}
  {
    assert (d, k) in Links(fs, i);
    var rest := Links(fs, i) - {(d, k)};
    assert |rest| == 0;
  }

  lemma CreateDirInv(fs: Fs, d: nat, name: string, i: nat)
    requires Inv(fs) && 0 < i < |fs.inodes| && fs.inodes[i] == Inode(Kind.Free, 0, []) && Linked(fs, d) && Absent(fs, d, name)
    ensures Inv(CreateFs(fs, d, name, Dir, i))
  {
    var fs1, k := CreateFs(fs, d, name, File, i), Vacant(fs.inodes[d].entries, 0);
    AddedSlot(fs, d, name);
    CreateGains(fs, d, name, File, i);
    GainedInv(fs, fs1, i, d, name);
    assert fs1.inodes[i] == Inode(File, 1, []);
    DotsInv(fs1, i, d, k);
    CreateDirSplits(fs, d, name, i);
  }

  /** create keeps the invariant. */
  lemma CreateInv(fs: Fs, d: nat, name: string, kind: Kind, i: nat)
    requires Inv(fs) && 0 < i < |fs.inodes| && fs.inodes[i].kind == Free && kind != Free
    requires Linked(fs, d) && Absent(fs, d, name)
    ensures Inv(CreateFs(fs, d, name, kind, i))
  {
    assert FreeOk(fs, i);
    if kind == Dir {
      CreateDirInv(fs, d, name, i);
    } else {
      CreateGains(fs, d, name, kind, i);
      GainedInv(fs, CreateFs(fs, d, name, kind, i), i, d, name);
    }
  }

  // ---------- unlink ----------

  // Slot k of d is cleared; directory q, if it is one, is no longer linked.
  lemma ClearedLinks(fs: Fs, d: nat, k: nat, j: nat)
    requires Linked(fs, d) && k < |fs.inodes[d].entries| && j != 0
    requires var q := fs.inodes[d].entries[k].inum;
      && q != 0 && q < |fs.inodes| && q != d && fs.inodes[d].entries[k].name != "."
      && (fs.inodes[q].kind == Dir ==>
            fs.inodes[q].nlink == 1 && DirOk(fs, q) && DirEmpty(fs.inodes[q].entries) && Up(fs, q) == d && fs.inodes[d].nlink > 1)
    ensures var q := fs.inodes[d].entries[k].inum;
      Links(ClearFs(fs, d, k), j) == Links(fs, j) - {(d, k)} - if fs.inodes[q].kind == Dir then {(q, 1)} else {}
  {
    var fs', q := ClearFs(fs, d, k), fs.inodes[d].entries[k].inum;
    forall x: nat, m: nat
      ensures Counts(fs', x, m, j) <==> Counts(fs, x, m, j) && !(x == d && m == k) && !(fs.inodes[q].kind == Dir && x == q && m == 1)
    {
      assert x != d && x != q && x < |fs.inodes| ==> fs'.inodes[x] == fs.inodes[x];
    }
  }

  lemma OnlyEntry(fs: Fs, d: nat, k: nat, q: nat, x: nat, m: nat)
    requires RootOk(fs) && DirsOk(fs) && Tree(fs) && Sub(fs, d, k, q) && DirEmpty(fs.inodes[q].entries) && Counts(fs, x, m, q)
    ensures x == d && m == k
  {
    assert DirOk(fs, x);
    assert x != ROOT ==> HasParent(fs, x);
    assert m >= 2 ==> Sub(fs, x, m, q);
  }

  // An empty subdirectory has one link, the entry in its parent.
  lemma EmptySub(fs: Fs, d: nat, k: nat, q: nat)
    requires RootOk(fs) && DirsOk(fs) && Tree(fs) && CountsOk(fs) && Sub(fs, d, k, q) && DirEmpty(fs.inodes[q].entries)
    ensures q != d && q != ROOT && Up(fs, q) == d && Linked(fs, q) && Links(fs, q) == {(d, k)}
  {
    NotDot(fs, d, k);
    assert (d, k) in Links(fs, q);
    forall x: nat, m: nat | (x, m) in Links(fs, q) ensures x == d && m == k {
      OnlyEntry(fs, d, k, q, x, m);
    }
  }

  // A linked directory has a link other than the ".." of a subdirectory.
  lemma OwnLink(fs: Fs, d: nat) returns (x: nat, m: nat)
    requires RootOk(fs) && DirsOk(fs) && Tree(fs) && Linked(fs, d)
    ensures Counts(fs, x, m, d) && (m == 1 ==> x == ROOT)
  {
    if d == ROOT {
      assert DirOk(fs, ROOT);
      x, m := ROOT, 1;
    } else {
      assert HasParent(fs, d);
      m :| Sub(fs, Up(fs, d), m, d);
      x := Up(fs, d);
      NotDot(fs, x, m);
    }
  }

  lemma TwoLinks(fs: Fs, i: nat, a: (nat, nat), b: (nat, nat))
    requires CountsOk(fs) && 0 < i < |fs.inodes| && a in Links(fs, i) && b in Links(fs, i) && a != b
    ensures fs.inodes[i].nlink > 1
  {
    assert |Links(fs, i) - {a} - {b}| == |Links(fs, i)| - 2;
  }

  lemma ParentLinks(fs: Fs, d: nat, q: nat)
    requires Inv(fs) && Linked(fs, d) && Linked(fs, q) && Up(fs, q) == d && q != ROOT
    ensures fs.inodes[d].nlink > 1
  {
    assert DirOk(fs, q);
    var x, m := OwnLink(fs, d);
    TwoLinks(fs, d, (q, 1), (x, m));
  }

  // What unlink has established before it writes.
  ghost predicate Removable(fs: Fs, d: nat, k: nat) {
    && Linked(fs, d) && 2 <= k < |fs.inodes[d].entries|
    && var q := fs.inodes[d].entries[k].inum;
       q != 0 && q < |fs.inodes| == |fs.refs| && fs.refs[q] > 0 && (fs.inodes[q].kind == Dir ==> DirEmpty(fs.inodes[q].entries))
  }

  // A removable entry, taken apart.
  ghost predicate RemovableFacts(fs: Fs, d: nat, k: nat)
    requires Removable(fs, d, k)
  {
    var q := fs.inodes[d].entries[k].inum;
    && q != d && fs.inodes[d].entries[k].name != "." && Counts(fs, d, k, q) && fs.inodes[q].nlink >= 1
    && (fs.inodes[q].kind == Dir ==>
          && q != ROOT && Linked(fs, q) && fs.inodes[q].nlink == 1 && DirOk(fs, q) && Up(fs, q) == d
          && fs.inodes[d].nlink > 1 && Links(fs, q) == {(d, k)})
  }

  lemma LinkCounted(fs: Fs, d: nat, k: nat, q: nat)
    requires CountsOk(fs) && Counts(fs, d, k, q) && 0 < q < |fs.inodes|
    ensures fs.inodes[q].nlink >= 1
  {
    assert (d, k) in Links(fs, q);
  }

  lemma RemovableHolds(fs: Fs, d: nat, k: nat)
    requires Inv(fs) && Removable(fs, d, k)
    ensures RemovableFacts(fs, d, k)
  {
    var q := fs.inodes[d].entries[k].inum;
    NotDot(fs, d, k);
    LinkCounted(fs, d, k, q);
    if fs.inodes[q].kind == Dir { RemovableDir(fs, d, k, q); }
  }

  lemma RemovableDir(fs: Fs, d: nat, k: nat, q: nat)
    requires Inv(fs) && Sub(fs, d, k, q) && DirEmpty(fs.inodes[q].entries)
    ensures q != d && q != ROOT && Linked(fs, q) && fs.inodes[q].nlink == 1 && DirOk(fs, q) && Up(fs, q) == d
    ensures fs.inodes[d].nlink > 1 && Links(fs, q) == {(d, k)}
  {
    EmptySub(fs, d, k, q);
    ParentLinks(fs, d, q);
    assert |Links(fs, q)| == 1;
  }

  lemma ClearedCount(fs: Fs, d: nat, k: nat, j: nat)
    requires Removable(fs, d, k) && RemovableFacts(fs, d, k) && j != 0
    ensures var q := fs.inodes[d].entries[k].inum;
      |Links(ClearFs(fs, d, k), j)| == |Links(fs, j)| - (if j == q then 1 else 0) - (if j == d && fs.inodes[q].kind == Dir then 1 else 0)
  {
    var q := fs.inodes[d].entries[k].inum;
    ClearedLinks(fs, d, k, j);
    assert (d, k) in Links(fs, j) <==> j == q;
    if fs.inodes[q].kind == Dir { assert (q, 1) in Links(fs, j) <==> j == d; }
  }

  lemma ClearedCounts(fs: Fs, d: nat, k: nat)
    requires CountsOk(fs) && Removable(fs, d, k) && RemovableFacts(fs, d, k)
    ensures CountsOk(ClearFs(fs, d, k))
  {
    var fs' := ClearFs(fs, d, k);
    forall j: nat | 0 < j < |fs'.inodes| ensures fs'.inodes[j].nlink == |Links(fs', j)| {
      ClearedCount(fs, d, k, j);
    }
  }

  lemma ClearedTree(fs: Fs, d: nat, k: nat)
    requires Tree(fs) && Removable(fs, d, k) && RemovableFacts(fs, d, k)
    ensures Tree(ClearFs(fs, d, k))
  {
    var fs', q := ClearFs(fs, d, k), fs.inodes[d].entries[k].inum;
    forall x: nat, m: nat, p: nat ensures Sub(fs', x, m, p) <==> Sub(fs, x, m, p) && !(x == d && m == k) { }
    forall p: nat | p < |fs.inodes| ensures Up(fs', p) == Up(fs, p) { }
    forall p | Linked(fs', p) && p != ROOT ensures HasParent(fs', p) {
      assert HasParent(fs, p);
      var m :| Sub(fs, Up(fs, p), m, p);
      assert Sub(fs', Up(fs', p), m, p);
    }
  }

  lemma ClearedDirs(fs: Fs, d: nat, k: nat)
    requires DirsOk(fs) && Removable(fs, d, k) && RemovableFacts(fs, d, k)
    ensures DirsOk(ClearFs(fs, d, k))
  {
    var fs' := ClearFs(fs, d, k);
    forall x | Linked(fs', x) ensures DirOk(fs', x) {
      assert DirOk(fs, x);
    }
  }

  lemma ClearedRest(fs: Fs, d: nat, k: nat)
    requires RootOk(fs) && FreesOk(fs) && DeadOk(fs) && Removable(fs, d, k) && RemovableFacts(fs, d, k)
    ensures RootOk(ClearFs(fs, d, k)) && FreesOk(ClearFs(fs, d, k)) && DeadOk(ClearFs(fs, d, k))
  {
    var fs' := ClearFs(fs, d, k);
    forall x | 0 < x < |fs'.inodes| ensures FreeOk(fs', x) {
      assert FreeOk(fs, x);
    }
    forall x | IsDir(fs', x) && !Linked(fs', x) ensures DeadDir(fs', x) {
      assert x != fs.inodes[d].entries[k].inum ==> IsDir(fs, x) && !Linked(fs, x) && DeadDir(fs, x);
    }
  }

  /** unlink keeps the invariant; the link count it decrements is never below 1. */
  lemma UnlinkInv(fs: Fs, d: nat, k: nat)
    requires Inv(fs) && Removable(fs, d, k)
    ensures Inv(ClearFs(fs, d, k)) && fs.inodes[fs.inodes[d].entries[k].inum].nlink >= 1
  {
    RemovableHolds(fs, d, k);
    ClearedCounts(fs, d, k);
    ClearedTree(fs, d, k);
    ClearedDirs(fs, d, k);
    ClearedRest(fs, d, k);
  }

  // ---------- references ----------

  lemma HoldInv(fs: Fs, i: nat)
    requires Inv(fs) && 0 < i < |fs.inodes| && fs.inodes[i].kind != Free
    ensures Inv(Hold(fs, i))
  {
    SameInodes(fs, Hold(fs, i));
    HoldFree(fs, i);
  }

  lemma HoldFree(fs: Fs, i: nat)
    requires FreesOk(fs) && i < |fs.inodes| && fs.inodes[i].kind != Free
    ensures FreesOk(Hold(fs, i))
  {
    forall x | 0 < x < |fs.inodes| ensures FreeOk(Hold(fs, i), x) {
      assert FreeOk(fs, x);
    }
  }

  lemma DropFree(fs: Fs, i: nat)
    requires FreesOk(fs) && i < |fs.inodes| && fs.refs[i] > 0
    ensures FreesOk(Drop(fs, i))
  {
    forall x | 0 < x < |fs.inodes| ensures FreeOk(Drop(fs, i), x) {
      assert FreeOk(fs, x);
    }
  }

  // The link structure does not depend on references, nor on inodes without links.
  lemma SameInodes(fs: Fs, fs': Fs)
    requires |fs'.inodes| == |fs.inodes| && (forall x :: 0 <= x < |fs.inodes| ==> SameOrDead(fs.inodes[x], fs'.inodes[x]))
    requires Inv(fs) && |fs'.refs| == |fs.refs|
    ensures RootOk(fs') && DirsOk(fs') && CountsOk(fs') && Tree(fs') && DeadOk(fs')
  {
    SameCounts(fs, fs');
    SameDirs(fs, fs');
    SameSubs(fs, fs');
  }

  lemma SameCounts(fs: Fs, fs': Fs)
    requires |fs'.inodes| == |fs.inodes| && (forall x :: 0 <= x < |fs.inodes| ==> SameOrDead(fs.inodes[x], fs'.inodes[x]))
    requires CountsOk(fs)
    ensures CountsOk(fs')
  {
    forall x: nat, m: nat, i: nat ensures Counts(fs', x, m, i) <==> Counts(fs, x, m, i) { }
    forall i: nat | 0 < i < |fs.inodes| ensures Links(fs', i) == Links(fs, i) { }
  }

  lemma SameDirs(fs: Fs, fs': Fs)
    requires |fs'.inodes| == |fs.inodes| && (forall x :: 0 <= x < |fs.inodes| ==> SameOrDead(fs.inodes[x], fs'.inodes[x]))
    requires RootOk(fs) && DirsOk(fs) && DeadOk(fs) && |fs'.refs| == |fs.refs|
    ensures RootOk(fs') && DirsOk(fs') && DeadOk(fs')
  {
    forall x | Linked(fs', x) ensures DirOk(fs', x) { assert DirOk(fs, x); }
    forall x | IsDir(fs', x) && !Linked(fs', x) ensures DeadDir(fs', x) {
      assert IsDir(fs, x) && !Linked(fs, x) && DeadDir(fs, x);
    }
  }

  ghost predicate SameOrDead(x: Inode, y: Inode) {
    y == x || (x.nlink == 0 && y == Inode(Kind.Free, 0, []))
  }

  lemma SameSubs(fs: Fs, fs': Fs)
    requires |fs'.inodes| == |fs.inodes| && (forall x :: 0 <= x < |fs.inodes| ==> SameOrDead(fs.inodes[x], fs'.inodes[x]))
    requires RootOk(fs) && DirsOk(fs) && CountsOk(fs) && Tree(fs)
    ensures Tree(fs')
  {
    forall x: nat, m: nat, q: nat ensures Sub(fs', x, m, q) <==> Sub(fs, x, m, q) {
      if Sub(fs, x, m, q) {
        NotDot(fs, x, m);
        assert (x, m) in Links(fs, q);
      }
    }
    forall q: nat | Linked(fs, q) ensures Up(fs', q) == Up(fs, q) { }
    forall x: nat, m: nat, q: nat | Sub(fs, x, m, q) ensures Linked(fs, q) {
      NotDot(fs, x, m);
      assert (x, m) in Links(fs, q);
    }
    forall q | Linked(fs', q) && q != ROOT ensures HasParent(fs', q) {
      assert HasParent(fs, q);
      var m :| Sub(fs, Up(fs, q), m, q);
      assert Sub(fs', Up(fs', q), m, q);
    }
  }

  /** iput keeps the invariant: an inode is freed only when nothing names it. */
  lemma DropInv(fs: Fs, i: nat)
    requires Inv(fs) && 0 < i < |fs.inodes| && fs.refs[i] > 0
    ensures Inv(Drop(fs, i))
  {
    SameInodes(fs, Drop(fs, i));
    DropFree(fs, i);
  }

  // ---------- creating in a directory that has been removed ----------

  lemma LostLink(fs: Fs, fs': Fs, d: nat, k: nat, i: nat, name: string)
    requires CountsOk(fs) && !Linked(fs, d) && 0 < i && Gained(fs, fs', d, k, i, name)
    ensures !CountsOk(fs')
  {
    OneSlotLinks(fs, fs', d, k, i);
    assert (d, k) !in Links(fs, i);
  }

  lemma SubsetSize(a: set<(nat, nat)>, b: set<(nat, nat)>)
    requires a <= b
    ensures |a| <= |b|
  {
    assert b == a + (b - a);
  }

  // mkdir makes the removed directory d look linked again, and with it the ".." that nobody counted.
  lemma RevivedLink(fs: Fs, d: nat, name: string, i: nat)
    requires CountsOk(fs) && DeadOk(fs) && 0 < d && IsDir(fs, d) && fs.inodes[d].nlink == 0 && Key(name) != "."
    requires 0 < i < |fs.inodes| == |fs.refs| && fs.inodes[i] == Inode(Kind.Free, 0, [])
    ensures !CountsOk(CreateFs(fs, d, name, Dir, i))
  {
    var fs', p := CreateFs(fs, d, name, Dir, i), Up(fs, d);
    assert DeadDir(fs, d);
    RevivedCounts(fs, d, name, i);
    hide CreateFs, DeadOk, CountsOk;
    if p == i {
      TwoCounted(fs', i, (d, 1), (d, Vacant(fs.inodes[d].entries, 0)));
    } else {
      ExtraLink(fs, fs', p, d, 1);
    }
  }

  lemma TwoCounted(fs: Fs, i: nat, a: (nat, nat), b: (nat, nat))
    requires 0 < i < |fs.inodes| && fs.inodes[i].nlink == 1 && a != b && Counts(fs, a.0, a.1, i) && Counts(fs, b.0, b.1, i)
    ensures !CountsOk(fs)
  {
    SubsetSize({a, b}, Links(fs, i));
  }

  lemma ExtraLink(fs: Fs, fs': Fs, p: nat, x: nat, m: nat)
    requires CountsOk(fs) && 0 < p < |fs.inodes| == |fs'.inodes| && fs'.inodes[p].nlink == fs.inodes[p].nlink
    requires forall y: nat, n: nat :: Counts(fs, y, n, p) ==> Counts(fs', y, n, p)
    requires Counts(fs', x, m, p) && !Counts(fs, x, m, p)
    ensures !CountsOk(fs')
  {
    SubsetSize(Links(fs, p) + {(x, m)}, Links(fs', p));
    assert fs.inodes[p].nlink == |Links(fs, p)|;
  }

  // The revived directory contributes its ".." and the new entry; every other link is still there.
  lemma RevivedCounts(fs: Fs, d: nat, name: string, i: nat)
    requires IsDir(fs, d) && DeadDir(fs, d) && fs.inodes[d].nlink == 0 && 0 < d && Key(name) != "."
    requires 0 < i < |fs.inodes| == |fs.refs| && fs.inodes[i] == Inode(Kind.Free, 0, [])
    ensures var fs', p, k := CreateFs(fs, d, name, Dir, i), Up(fs, d), Vacant(fs.inodes[d].entries, 0);
      && k >= 2 && Counts(fs', d, 1, p) && Counts(fs', d, k, i)
      && |fs'.inodes| == |fs.inodes| && fs'.inodes[i].nlink == 1 && (p != i ==> fs'.inodes[p].nlink == fs.inodes[p].nlink)
      && (forall x: nat, m: nat :: Counts(fs, x, m, p) ==> Counts(fs', x, m, p))
  {
    var fs', es := CreateFs(fs, d, name, Dir, i), fs.inodes[d].entries;
    var k := Vacant(es, 0);
    assert k == Vacant(es, 1) == Vacant(es, 2) >= 2;
    assert fs'.inodes[d].entries == Put(es, k, Dirent(i, Key(name)));
    forall x: nat, m: nat | Counts(fs, x, m, Up(fs, d)) ensures Counts(fs', x, m, Up(fs, d)) {
      assert fs'.inodes[x] == fs.inodes[x];
    }
  }

  lemma AbsentNoDot(fs: Fs, d: nat, name: string)
    requires DirsOk(fs) && DeadOk(fs) && 0 < d && IsDir(fs, d) && Absent(fs, d, name)
    ensures Key(name) != "." && Key(name) != ".."
  {
    var es := fs.inodes[d].entries;
    assert if Linked(fs, d) then DirOk(fs, d) else DeadDir(fs, d);
    assert !Matches(es[0], name) && !Matches(es[1], name);
  }

  /** create keeps the invariant, and the link counts right, exactly in directories that are still linked. */
  lemma CreateExactly(fs: Fs, d: nat, name: string, kind: Kind, i: nat)
    requires Inv(fs) && 0 < d && IsDir(fs, d) && Absent(fs, d, name)
    requires 0 < i < |fs.inodes| && fs.inodes[i].kind == Free && kind != Free
    ensures Inv(CreateFs(fs, d, name, kind, i)) <==> Linked(fs, d)
    ensures CountsOk(CreateFs(fs, d, name, kind, i)) <==> Linked(fs, d)
  {
    if Linked(fs, d) {
      CreateInv(fs, d, name, kind, i);
    } else {
      assert FreeOk(fs, i) && fs.inodes[d].nlink == |Links(fs, d)|;
      AbsentNoDot(fs, d, name);
      hide Links, DirsOk, FreesOk, Tree;
      if kind == Dir {
        RevivedLink(fs, d, name, i);
      } else {
        CreateGains(fs, d, name, kind, i);
        LostLink(fs, CreateFs(fs, d, name, kind, i), d, Vacant(fs.inodes[d].entries, 0), i, name);
      }
    }
  }

  /** link keeps the invariant, and the link counts right, exactly in directories that are still linked. */
  lemma LinkExactly(fs: Fs, i: nat, d: nat, name: string)
    requires Inv(fs) && 0 < i < |fs.inodes| && fs.inodes[i].kind != Dir && fs.inodes[i].kind != Free
    requires 0 < d && IsDir(fs, d) && Absent(fs, d, name)
    ensures Inv(LinkFs(fs, i, d, name)) <==> Linked(fs, d)
    ensures CountsOk(LinkFs(fs, i, d, name)) <==> Linked(fs, d)
  {
    if Linked(fs, d) {
      LinkInv(fs, i, d, name);
    } else {
      assert fs.inodes[i].nlink == |Links(fs, i)|;
      hide Links;
      LinkGains(fs, i, d, name);
      LostLink(fs, LinkFs(fs, i, d, name), d, Vacant(fs.inodes[d].entries, 0), i, name);
    }
  }

  // ---------- what names lead to ----------

  function FindIn(es: seq<Dirent>, name: string): Option<nat> {
    match Lookup(es, name, 0) case Some(k) => Some(es[k].inum) case None => None
  }

  /** The inode that a name in directory d leads to. */
  function Find(fs: Fs, d: nat, name: string): Option<nat> {
    if d < |fs.inodes| then FindIn(fs.inodes[d].entries, name) else None
  }

  ghost predicate Distinct(es: seq<Dirent>) {
    forall j, k :: 0 <= j < k < |es| && es[j].inum != 0 && es[k].inum != 0 ==> es[j].name != es[k].name
  }

  lemma FoundIs(es: seq<Dirent>, name: string, j: nat)
    requires Distinct(es) && j < |es| && Matches(es[j], name)
    ensures FindIn(es, name) == Some(es[j].inum)
  {
    var r := Lookup(es, name, 0);
    assert r.Some? && Matches(es[r.value], name);
  }

  lemma PutFinds(es: seq<Dirent>, k: nat, e: Dirent, name: string)
    requires Distinct(es) && k <= |es| && (k < |es| ==> es[k].inum == 0) && e.inum != 0
    requires forall j :: 0 <= j < |es| && es[j].inum != 0 ==> es[j].name != e.name
    ensures FindIn(Put(es, k, e), name) == if Key(name) == e.name then Some(e.inum) else FindIn(es, name)
  {
    var es' := Put(es, k, e);
    assert Distinct(es');
    hide Distinct;
    var r := Lookup(es, name, 0);
    if Key(name) == e.name {
      FoundIs(es', name, k);
    } else if r.Some? {
      FoundIs(es', name, r.value);
    } else {
      assert forall j :: 0 <= j < |es'| ==> !Matches(es'[j], name);
    }
  }

  lemma ClearFinds(es: seq<Dirent>, k: nat, name: string)
    requires Distinct(es) && k < |es| && es[k].inum != 0
    ensures FindIn(es[k := NO_ENTRY], name) == if Key(name) == es[k].name then None else FindIn(es, name)
  {
    var es' := es[k := NO_ENTRY];
    assert Distinct(es');
    var r := Lookup(es, name, 0);
    if Key(name) == es[k].name {
      assert forall j :: 0 <= j < |es'| ==> !Matches(es'[j], name);
    } else if r.Some? {
      FoundIs(es', name, r.value);
    } else {
      assert forall j :: 0 <= j < |es'| ==> !Matches(es'[j], name);
    }
  }

  lemma DistinctIn(fs: Fs, d: nat)
    requires DirsOk(fs) && DeadOk(fs) && IsDir(fs, d)
    ensures Distinct(fs.inodes[d].entries)
  {
    assert if Linked(fs, d) then DirOk(fs, d) else DeadDir(fs, d);
  }

  // The new name leads to i, a new directory has its dots, and every other name leads where it led.
  function CreatedName(fs: Fs, d: nat, name: string, kind: Kind, i: nat, x: nat, n: string): Option<nat> {
    if x == d && Key(n) == Key(name) then Some(i)
    else if x == i && kind == Dir && Key(n) == "." then Some(i)
    else if x == i && kind == Dir && Key(n) == ".." then Some(d)
    else Find(fs, x, n)
  }

  /** What create leaves behind: an inode of the kind asked for with one link and one more reference, one more
      link to the parent for a directory, and no change to any other inode. */
  ghost predicate NewInode(fs: Fs, fs': Fs, d: nat, name: string, kind: Kind, i: nat) {
    && |fs'.inodes| == |fs.inodes| == |fs.refs| && d < |fs.inodes| && i < |fs.inodes|
    && fs'.refs == fs.refs[i := fs.refs[i] + 1]
    && fs'.inodes[i].kind == kind && fs'.inodes[i].nlink == 1 && |fs'.inodes[i].entries| == (if kind == Dir then 2 else 0)
    && fs'.inodes[d].kind == fs.inodes[d].kind && fs'.inodes[d].nlink == fs.inodes[d].nlink + (if kind == Dir then 1 else 0)
    && (forall x :: 0 <= x < |fs.inodes| && x != d && x != i ==> fs'.inodes[x] == fs.inodes[x])
    && forall x: nat, n: string :: Find(fs', x, n) == CreatedName(fs, d, name, kind, i, x, n)
  }

  /** create does to names and inodes what it should, in removed directories too. */
  lemma CreateMeans(fs: Fs, d: nat, name: string, kind: Kind, i: nat)
    requires Inv(fs) && 0 < d && Creates(fs, d, name, kind, i)
    ensures NewInode(fs, CreateFs(fs, d, name, kind, i), d, name, kind, i)
  {
    CreateInodes(fs, d, name, kind, i);
    forall x: nat, n: string ensures Find(CreateFs(fs, d, name, kind, i), x, n) == CreatedName(fs, d, name, kind, i, x, n) {
      CreateFinds(fs, d, name, kind, i, x, n);
    }
    hide CreateFs, Find, Inv, CreatedName, Put, Vacant;
  }

  lemma CreateFinds(fs: Fs, d: nat, name: string, kind: Kind, i: nat, x: nat, n: string)
    requires Inv(fs) && 0 < d && Creates(fs, d, name, kind, i)
    ensures Find(CreateFs(fs, d, name, kind, i), x, n) == CreatedName(fs, d, name, kind, i, x, n)
  {
    var es := fs.inodes[d].entries;
    assert FreeOk(fs, i);
    CreateInodes(fs, d, name, kind, i);
    DistinctIn(fs, d);
    hide Inv, CreateFs, FindIn, Put, Vacant, Key;
    if x == d {
      assert forall j :: 0 <= j < |es| ==> !Matches(es[j], name);
      PutFinds(es, Vacant(es, 0), Dirent(i, Key(name)), n);
    } else if x == i && kind == Dir {
      DotsFind(i, d, n);
    } else if x == i {
      NoneIn(n);
    }
  }

  lemma NoneIn(n: string)
    ensures FindIn([], n) == None
  {
  }

  lemma DotsFind(i: nat, d: nat, n: string)
    requires i != 0 && d != 0
    ensures FindIn([Dirent(i, "."), Dirent(d, "..")], n)
         == if Key(n) == "." then Some(i) else if Key(n) == ".." then Some(d) else None
  {
    var es := [Dirent(i, "."), Dirent(d, "..")];
    assert Distinct(es);
    if Key(n) == "." { FoundIs(es, n, 0); } else if Key(n) == ".." { FoundIs(es, n, 1); }
  }

  lemma CreateInodes(fs: Fs, d: nat, name: string, kind: Kind, i: nat)
    requires i < |fs.inodes| == |fs.refs| && d < |fs.inodes| && d != i
    ensures var fs', es := CreateFs(fs, d, name, kind, i), fs.inodes[d].entries;
      && |fs'.inodes| == |fs.inodes| && fs'.refs == fs.refs[i := fs.refs[i] + 1]
      && fs'.inodes[i] == Inode(kind, 1, if kind == Dir then [Dirent(i, "."), Dirent(d, "..")] else [])
      && fs'.inodes[d] == Inode(fs.inodes[d].kind, fs.inodes[d].nlink + (if kind == Dir then 1 else 0),
                                Put(es, Vacant(es, 0), Dirent(i, Key(name))))
      && forall x :: 0 <= x < |fs.inodes| && x != d && x != i ==> fs'.inodes[x] == fs.inodes[x]
  {
    hide Put, Vacant;
  }

  /** link makes the new name lead to the inode and counts one more link; nothing else changes. */
  ghost predicate NewLink(fs: Fs, fs': Fs, i: nat, d: nat, name: string) {
    && OneMoreLink(fs, fs', i, d)
    && forall x: nat, n: string :: Find(fs', x, n) == if x == d && Key(n) == Key(name) then Some(i) else Find(fs, x, n)
  }

  ghost predicate OneMoreLink(fs: Fs, fs': Fs, i: nat, d: nat) {
    && fs'.refs == fs.refs && |fs'.inodes| == |fs.inodes| && i < |fs.inodes| && d < |fs.inodes|
    && fs'.inodes[i] == fs.inodes[i].(nlink := fs.inodes[i].nlink + 1)
    && fs'.inodes[d].kind == fs.inodes[d].kind && fs'.inodes[d].nlink == fs.inodes[d].nlink
    && (forall x :: 0 <= x < |fs.inodes| && x != d && x != i ==> fs'.inodes[x] == fs.inodes[x])
  }

  lemma LinkInodes(fs: Fs, i: nat, d: nat, name: string)
    requires i < |fs.inodes| && d < |fs.inodes| && i != d
    ensures OneMoreLink(fs, LinkFs(fs, i, d, name), i, d)
  {
    hide Put, Vacant;
  }

  lemma LinkMeans(fs: Fs, i: nat, d: nat, name: string)
    requires Inv(fs) && 0 < i < |fs.inodes| && fs.inodes[i].kind != Dir && IsDir(fs, d) && Absent(fs, d, name)
    ensures NewLink(fs, LinkFs(fs, i, d, name), i, d, name)
  {
    DistinctIn(fs, d);
    LinkInodes(fs, i, d, name);
    hide Inv, OneMoreLink, LinkFs;
    forall x: nat, n: string
      ensures Find(LinkFs(fs, i, d, name), x, n) == if x == d && Key(n) == Key(name) then Some(i) else Find(fs, x, n)
    {
      LinkFinds(fs, i, d, name, x, n);
    }
    hide Find, Vacant, Put, Key, Distinct;
  }

  lemma LinkFinds(fs: Fs, i: nat, d: nat, name: string, x: nat, n: string)
    requires 0 < i < |fs.inodes| && i != d && Absent(fs, d, name) && Distinct(fs.inodes[d].entries)
    ensures Find(LinkFs(fs, i, d, name), x, n) == if x == d && Key(n) == Key(name) then Some(i) else Find(fs, x, n)
  {
    var es := fs.inodes[d].entries;
    assert forall j :: 0 <= j < |es| ==> !Matches(es[j], name);
    if x == d { PutFinds(es, Vacant(es, 0), Dirent(i, Key(name)), n); }
    hide FindIn, Distinct, Put, Vacant;
  }

  // The last link to q goes, and nobody holds it.
  predicate LastLink(fs: Fs, q: nat) {
    q < |fs.inodes| && q < |fs.refs| && fs.inodes[q].nlink == 1 && fs.refs[q] == 0
  }

  /** unlink takes exactly the one name away and one link off its inode, and off the directory if the inode is
      one; the inode is freed exactly with its last link, unless somebody holds it. */
  ghost predicate NameGone(fs: Fs, fs': Fs, d: nat, k: nat)
    requires d < |fs.inodes| && k < |fs.inodes[d].entries| && fs.inodes[d].entries[k].inum < |fs.inodes|
  {
    && OneLessLink(fs, fs', d, fs.inodes[d].entries[k])
    && forall x: nat, n: string :: Find(fs', x, n) == UnlinkedName(fs, d, fs.inodes[d].entries[k], x, n)
  }

  ghost predicate OneLessLink(fs: Fs, fs': Fs, d: nat, e: Dirent)
    requires d < |fs.inodes| && e.inum < |fs.inodes|
  {
    && fs'.refs == fs.refs && |fs'.inodes| == |fs.inodes| && d != e.inum
    && fs'.inodes[e.inum] == (if LastLink(fs, e.inum) then Inode(Kind.Free, 0, [])
                              else fs.inodes[e.inum].(nlink := fs.inodes[e.inum].nlink - 1))
    && fs'.inodes[d].kind == Dir
    && fs'.inodes[d].nlink == fs.inodes[d].nlink - (if fs.inodes[e.inum].kind == Dir then 1 else 0)
    && forall x :: 0 <= x < |fs.inodes| && x != d && x != e.inum ==> fs'.inodes[x] == fs.inodes[x]
  }

  function UnlinkedName(fs: Fs, d: nat, e: Dirent, x: nat, n: string): Option<nat> {
    if (x == d && Key(n) == e.name) || (x == e.inum && LastLink(fs, x)) then None else Find(fs, x, n)
  }

  lemma UnlinkMeans(fs: Fs, d: nat, k: nat)
    requires Inv(fs) && Enabled(fs, Unlink(d, k))
    ensures NameGone(fs, UnlinkFs(fs, d, k), d, k)
  {
    DistinctIn(fs, d);
    NotItself(fs, d, k);
    UnlinkLess(fs, d, k);
    hide Inv, OneLessLink, UnlinkFs, UnlinkedName, Distinct;
    forall x: nat, n: string ensures Find(UnlinkFs(fs, d, k), x, n) == UnlinkedName(fs, d, fs.inodes[d].entries[k], x, n) {
      UnlinkFinds(fs, d, k, x, n);
    }
    hide Find;
  }

  lemma UnlinkLess(fs: Fs, d: nat, k: nat)
    requires |fs.refs| == |fs.inodes| && IsDir(fs, d) && k < |fs.inodes[d].entries|
    requires fs.inodes[d].entries[k].inum < |fs.inodes| && fs.inodes[d].entries[k].inum != d
    ensures OneLessLink(fs, UnlinkFs(fs, d, k), d, fs.inodes[d].entries[k])
  {
    UnlinkInodes(fs, d, k);
    hide UnlinkFs, LastLink;
  }

  lemma UnlinkFinds(fs: Fs, d: nat, k: nat, x: nat, n: string)
    requires |fs.refs| == |fs.inodes| && d < |fs.inodes| && k < |fs.inodes[d].entries| && Distinct(fs.inodes[d].entries)
    requires 0 < fs.inodes[d].entries[k].inum < |fs.inodes| && fs.inodes[d].entries[k].inum != d
    ensures Find(UnlinkFs(fs, d, k), x, n) == UnlinkedName(fs, d, fs.inodes[d].entries[k], x, n)
  {
    UnlinkInodes(fs, d, k);
    hide UnlinkFs;
    if x == d { ClearFinds(fs.inodes[d].entries, k, n); }
    hide Distinct;
  }

  lemma UnlinkInodes(fs: Fs, d: nat, k: nat)
    requires |fs.refs| == |fs.inodes| && d < |fs.inodes| && k < |fs.inodes[d].entries|
    requires fs.inodes[d].entries[k].inum < |fs.inodes| && fs.inodes[d].entries[k].inum != d
    ensures var fs', q := UnlinkFs(fs, d, k), fs.inodes[d].entries[k].inum;
      && |fs'.inodes| == |fs.inodes| && fs'.refs == fs.refs
      && fs'.inodes[q] == (if LastLink(fs, q) then Inode(Kind.Free, 0, []) else fs.inodes[q].(nlink := fs.inodes[q].nlink - 1))
      && fs'.inodes[d] == Inode(fs.inodes[d].kind, fs.inodes[d].nlink - (if fs.inodes[q].kind == Dir then 1 else 0),
                                fs.inodes[d].entries[k := NO_ENTRY])
      && forall x :: 0 <= x < |fs.inodes| && x != d && x != q ==> fs'.inodes[x] == fs.inodes[x]
  {
  }

  // No entry but the dots names its own directory.
  lemma NotItself(fs: Fs, d: nat, k: nat)
    requires Inv(fs) && Enabled(fs, Unlink(d, k))
    ensures fs.inodes[d].entries[k].inum != d
  {
    assert DirOk(fs, d);
    assert k >= 2;
    assert fs.inodes[d].entries[k].inum == d ==> Sub(fs, d, k, d);
    assert Sub(fs, d, k, d) ==> d != ROOT && Up(fs, d) == d;
    if Linked(fs, d) && d != ROOT { assert HasParent(fs, d); }
  }

  // ---------- whole runs ----------

  datatype Step =
    | Create(d: nat, name: string, kind: Kind, i: nat)
    | Link(from: nat, slot: nat, d: nat, name: string)   // the old name is entry `slot` of directory `from`
    | Unlink(d: nat, slot: nat)
    | Open(i: nat)
    | Close(i: nat)

  // create goes through, with the first free inode.
  predicate Creates(fs: Fs, d: nat, name: string, kind: Kind, i: nat) {
    && IsDir(fs, d) && Absent(fs, d, name) && kind != Free && 0 < i < |fs.inodes| && fs.inodes[i].kind == Free
    && forall j :: 0 < j < i ==> fs.inodes[j].kind != Free
  }

  predicate Enabled(fs: Fs, step: Step) {
    match step
    case Create(d, name, kind, i) => Linked(fs, d) && Creates(fs, d, name, kind, i)
    case Link(f, s, d, name) =>
      Linked(fs, f) && s < |fs.inodes[f].entries| && Linked(fs, d) && Absent(fs, d, name)
      && var i := fs.inodes[f].entries[s].inum; 0 < i < |fs.inodes| && fs.inodes[i].kind != Dir
    case Unlink(d, k) =>
      Linked(fs, d) && k < |fs.inodes[d].entries| && fs.inodes[d].entries[k].name != "." && fs.inodes[d].entries[k].name != ".."
      && var q := fs.inodes[d].entries[k].inum;
         0 < q < |fs.inodes| && (fs.inodes[q].kind == Dir ==> DirEmpty(fs.inodes[q].entries))
    case Open(i) => 0 < i < |fs.inodes| && fs.inodes[i].kind != Free
    case Close(i) => 0 < i < |fs.inodes| && i < |fs.refs| && fs.refs[i] > 0
  }

  function UnlinkFs(fs: Fs, d: nat, k: nat): Fs
    requires |fs.refs| == |fs.inodes| && d < |fs.inodes| && k < |fs.inodes[d].entries| && fs.inodes[d].entries[k].inum < |fs.inodes|
  {
    var q := fs.inodes[d].entries[k].inum;
    Drop(ClearFs(Hold(fs, q), d, k), q)
  }

  function Apply(fs: Fs, step: Step): Fs
    requires |fs.refs| == |fs.inodes| && Enabled(fs, step)
  {
    match step
    case Create(d, name, kind, i) => CreateFs(fs, d, name, kind, i)
    case Link(f, s, d, name) => LinkFs(fs, fs.inodes[f].entries[s].inum, d, name)
    case Unlink(d, k) => UnlinkFs(fs, d, k)
    case Open(i) => Hold(fs, i)
    case Close(i) => Drop(fs, i)
  }

  lemma HeldRemovable(fs: Fs, d: nat, k: nat)
    requires DirsOk(fs) && |fs.refs| == |fs.inodes| && Enabled(fs, Unlink(d, k))
    ensures Removable(Hold(fs, fs.inodes[d].entries[k].inum), d, k)
  {
    assert DirOk(fs, d);
  }

  lemma UnlinkStep(fs: Fs, d: nat, k: nat)
    requires Inv(fs) && Enabled(fs, Unlink(d, k))
    ensures Inv(UnlinkFs(fs, d, k)) && fs.inodes[fs.inodes[d].entries[k].inum].nlink >= 1
  {
    var q := fs.inodes[d].entries[k].inum;
    NoDangling(fs, d, k);
    HoldInv(fs, q);
    HeldRemovable(fs, d, k);
    UnlinkInv(Hold(fs, q), d, k);
    DropInv(ClearFs(Hold(fs, q), d, k), q);
  }

  lemma LinkStep(fs: Fs, f: nat, s: nat, d: nat, name: string)
    requires Inv(fs) && Enabled(fs, Link(f, s, d, name))
    ensures Inv(LinkFs(fs, fs.inodes[f].entries[s].inum, d, name))
  {
    var i := fs.inodes[f].entries[s].inum;
    assert DirOk(fs, f);
    NoDangling(fs, f, s);
    LinkInv(fs, i, d, name);
  }

  lemma StepInv(fs: Fs, step: Step)
    requires Inv(fs) && Enabled(fs, step)
    ensures Inv(Apply(fs, step))
  {
    match step
    case Create(d, name, kind, i) => CreateInv(fs, d, name, kind, i);
    case Link(f, s, d, name) => LinkStep(fs, f, s, d, name);
    case Unlink(d, k) => UnlinkStep(fs, d, k);
    case Open(i) => HoldInv(fs, i);
    case Close(i) => DropInv(fs, i);
  }

  ghost predicate Runs(fs: Fs, steps: seq<Step>)
    decreases |steps|
  {
    steps == [] || (|fs.refs| == |fs.inodes| && Enabled(fs, steps[0]) && Runs(Apply(fs, steps[0]), steps[1..]))
  }

  ghost function After(fs: Fs, steps: seq<Step>): Fs
    requires Runs(fs, steps)
    decreases |steps|
  {
    if steps == [] then fs else After(Apply(fs, steps[0]), steps[1..])
  }

  lemma {:induction false} RunInv(fs: Fs, steps: seq<Step>)
    requires Inv(fs) && Runs(fs, steps)
    ensures Inv(After(fs, steps))
    decreases |steps|
  {
    if steps != [] {
      StepInv(fs, steps[0]);
      RunInv(Apply(fs, steps[0]), steps[1..]);
    }
  }

  /** After any sequence of create, link, unlink, open and close in linked directories of a fresh
      image: nlink counts the links, names in a directory are distinct, and no link dangles. */
  lemma LinkCountsCorrect(n: nat, steps: seq<Step>, i: nat, d: nat, k: nat)
    requires n > ROOT && Runs(Image(n), steps)
    ensures var fs := After(Image(n), steps);
      && (0 < i < |fs.inodes| ==> fs.inodes[i].nlink == |Links(fs, i)|)
      && (Linked(fs, d) ==> DirOk(fs, d))
      && (Linked(fs, d) && k < |fs.inodes[d].entries| && fs.inodes[d].entries[k].inum != 0 ==>
            fs.inodes[d].entries[k].inum < |fs.inodes| && fs.inodes[fs.inodes[d].entries[k].inum].kind != Free)
  {
    var fs := After(Image(n), steps);
    ImageInv(n);
    RunInv(Image(n), steps);
    if Linked(fs, d) && k < |fs.inodes[d].entries| && fs.inodes[d].entries[k].inum != 0 { NoDangling(fs, d, k); }
  }

  // ---------- the exception happens ----------

  ghost predicate RemovedFrom(fs: Fs, e: Fs, d: nat, i: nat) {
    && |e.inodes| == |fs.inodes| == |e.refs| && IsDir(e, i) && !Linked(e, i) && e.refs[i] > 0
    && e.inodes[i].entries == [Dirent(i, "."), Dirent(d, "..")]
    && forall x :: 0 <= x < |fs.inodes| && x != d && x != i ==> e.inodes[x] == fs.inodes[x]
  }

  /** Every mkdir can be followed by an unlink that leaves its maker with a directory that is removed
      and still held. */
  lemma RemovedHeld(fs: Fs, d: nat, name: string, i: nat)
    requires Inv(fs) && Enabled(fs, Create(d, name, Dir, i))
    ensures var steps := [Create(d, name, Dir, i), Unlink(d, Vacant(fs.inodes[d].entries, 0))];
      Runs(fs, steps) && Inv(After(fs, steps)) && RemovedFrom(fs, After(fs, steps), d, i)
  {
    var a, b := Create(d, name, Dir, i), Unlink(d, Vacant(fs.inodes[d].entries, 0));
    var fs1 := CreateFs(fs, d, name, Dir, i);
    MadeAndRemoved(fs, d, name, i);
    hide CreateFs, UnlinkFs, Vacant, RemovedFrom;
    StepInv(fs, a);
    hide Inv;
    StepInv(fs1, b);
    RunTwo(fs, a, b);
  }

  lemma RunOne(fs: Fs, a: Step)
    requires |fs.refs| == |fs.inodes| && Enabled(fs, a)
    ensures Runs(fs, [a]) && After(fs, [a]) == Apply(fs, a)
  {
    hide Enabled, Apply;
    assert [a][1..] == [];
    assert Runs(Apply(fs, a), []) && After(Apply(fs, a), []) == Apply(fs, a);
  }

  lemma RunTwo(fs: Fs, a: Step, b: Step)
    requires |fs.refs| == |fs.inodes| && Enabled(fs, a)
    requires |Apply(fs, a).refs| == |Apply(fs, a).inodes| && Enabled(Apply(fs, a), b)
    ensures Runs(fs, [a, b]) && After(fs, [a, b]) == Apply(Apply(fs, a), b)
  {
    hide Enabled, Apply;
    RunOne(Apply(fs, a), b);
    assert [a, b][1..] == [b];
  }

  lemma MadeAndRemoved(fs: Fs, d: nat, name: string, i: nat)
    requires RootOk(fs) && DirsOk(fs) && Linked(fs, d) && Creates(fs, d, name, Dir, i)
    ensures var fs1, k := CreateFs(fs, d, name, Dir, i), Vacant(fs.inodes[d].entries, 0);
      && |fs1.refs| == |fs1.inodes| && Enabled(fs1, Unlink(d, k)) && RemovedFrom(fs, UnlinkFs(fs1, d, k), d, i)
  {
    var fs1, k := CreateFs(fs, d, name, Dir, i), Vacant(fs.inodes[d].entries, 0);
    AddedSlot(fs, d, name);
    CreatedEntry(fs, d, name, i);
    hide CreateFs;
    RemovedEntry(fs1, d, k, i);
    hide UnlinkFs;
    forall x | 0 <= x < |fs.inodes| && x != d && x != i ensures UnlinkFs(fs1, d, k).inodes[x] == fs.inodes[x] {
      assert fs1.inodes[x] == fs.inodes[x];
    }
  }

  lemma CreatedEntry(fs: Fs, d: nat, name: string, i: nat)
    requires i < |fs.inodes| == |fs.refs| && d < |fs.inodes| && d != i && Linked(fs, d)
    ensures var fs1, k := CreateFs(fs, d, name, Dir, i), Vacant(fs.inodes[d].entries, 0);
      && |fs1.inodes| == |fs.inodes| == |fs1.refs| && Linked(fs1, d) && k < |fs1.inodes[d].entries|
      && fs1.inodes[d].entries[k] == Dirent(i, Key(name)) && fs1.refs[i] > 0
      && fs1.inodes[i] == Inode(Dir, 1, [Dirent(i, "."), Dirent(d, "..")])
      && forall x :: 0 <= x < |fs.inodes| && x != d && x != i ==> fs1.inodes[x] == fs.inodes[x]
  {
  }

  lemma RemovedEntry(fs: Fs, d: nat, k: nat, i: nat)
    requires i < |fs.inodes| == |fs.refs| && d < |fs.inodes| && d != i && k < |fs.inodes[d].entries|
    requires fs.inodes[d].entries[k].inum == i && fs.refs[i] > 0 && fs.inodes[i] == Inode(Dir, 1, [Dirent(i, "."), Dirent(d, "..")])
    ensures RemovedFrom(fs, UnlinkFs(fs, d, k), d, i)
  {
  }

  // In directory 3, with file 2 and free inode 4.
  ghost predicate Miscounts(fs: Fs) {
    && |fs.inodes| == 5 == |fs.refs| && !CountsOk(CreateFs(fs, 3, "x", File, 4)) && !CountsOk(CreateFs(fs, 3, "x", Dir, 4))
    && !CountsOk(LinkFs(fs, 2, 3, "x"))
  }

  /** The exception in a run of a fresh image: a file and a directory are made, and the directory is
      removed while it is held. Making a file or a directory in it, or linking the file into it, leaves a
      link count that is not the number of links. */
  lemma RemovedDirectoryBreaks(fs: Fs)
    requires fs == CreateFs(Image(5), ROOT, "f", File, 2)
    ensures Runs(Image(5), [Create(ROOT, "f", File, 2)]) && After(Image(5), [Create(ROOT, "f", File, 2)]) == fs
    ensures var steps := [Create(ROOT, "a", Dir, 3), Unlink(ROOT, 3)];
      Runs(fs, steps) && Inv(After(fs, steps)) && RemovedFrom(fs, After(fs, steps), ROOT, 3) && Miscounts(After(fs, steps))
  {
    FirstFile(fs);
    hide Inv, CountsOk, CreateFs, LinkFs, Linked, Image, Runs, After, Lookup, Vacant, Miscounts, RemovedFrom;
    RemovedHeld(fs, ROOT, "a", 3);
    MiscountsIn(fs, After(fs, [Create(ROOT, "a", Dir, 3), Unlink(ROOT, 3)]));
  }

  lemma MiscountsIn(fs: Fs, e: Fs)
    requires |fs.inodes| == 5 && Inv(e) && RemovedFrom(fs, e, ROOT, 3) && fs.inodes[2].kind == File && fs.inodes[4].kind == Free
    ensures Miscounts(e)
  {
    NotThere(e.inodes[3].entries, "x");
    hide Inv, CountsOk, CreateFs, LinkFs, Linked, Lookup;
    CreateExactly(e, 3, "x", File, 4);
    CreateExactly(e, 3, "x", Dir, 4);
    LinkExactly(e, 2, 3, "x");
  }

  lemma FirstFile(fs: Fs)
    requires fs == CreateFs(Image(5), ROOT, "f", File, 2)
    ensures Runs(Image(5), [Create(ROOT, "f", File, 2)]) && After(Image(5), [Create(ROOT, "f", File, 2)]) == fs
    ensures Inv(fs) && Enabled(fs, Create(ROOT, "a", Dir, 3)) && Vacant(fs.inodes[ROOT].entries, 0) == 3
    ensures |fs.inodes| == 5 && fs.inodes[2].kind == File && fs.inodes[4].kind == Free
  {
    ImageInv(5);
    RootEntries();
    FirstState(fs);
    hide Inv, CreateFs, Vacant, Lookup;
    StepInv(Image(5), Create(ROOT, "f", File, 2));
    RunOne(Image(5), Create(ROOT, "f", File, 2));
  }

  lemma FirstState(fs: Fs)
    requires fs == CreateFs(Image(5), ROOT, "f", File, 2)
    ensures Enabled(fs, Create(ROOT, "a", Dir, 3)) && Vacant(fs.inodes[ROOT].entries, 0) == 3
    ensures |fs.inodes| == 5 && fs.inodes[2].kind == File && fs.inodes[4].kind == Free
  {
    RootEntries();
    CreatedFile(Image(5), ROOT, "f", 2);
    hide CreateFs, Vacant, Lookup;
    var es := fs.inodes[ROOT].entries;
    assert es == [Dirent(ROOT, "."), Dirent(ROOT, ".."), Dirent(2, "f")];
    NotThere(es, "a");
    AllTaken(es, 0);
  }

  lemma CreatedFile(fs: Fs, d: nat, name: string, i: nat)
    requires i < |fs.inodes| == |fs.refs| && d < |fs.inodes| && d != i
    ensures var fs1, es := CreateFs(fs, d, name, File, i), fs.inodes[d].entries;
      && |fs1.inodes| == |fs.inodes| == |fs1.refs| && fs1.inodes[i] == Inode(File, 1, [])
      && fs1.inodes[d] == fs.inodes[d].(entries := Put(es, Vacant(es, 0), Dirent(i, Key(name))))
      && forall x :: 0 <= x < |fs.inodes| && x != d && x != i ==> fs1.inodes[x] == fs.inodes[x]
  {
  }

  lemma RootEntries()
    ensures var es := Image(5).inodes[ROOT].entries; Lookup(es, "f", 0) == None && Vacant(es, 0) == 2
  {
    var es := Image(5).inodes[ROOT].entries;
    NotThere(es, "f");
    AllTaken(es, 0);
  }

  lemma NotThere(es: seq<Dirent>, name: string)
    requires forall k :: 0 <= k < |es| ==> es[k].name != Key(name)
    ensures Lookup(es, name, 0) == None
  {
  }

  lemma {:induction false} AllTaken(es: seq<Dirent>, k: nat)
    requires k <= |es| && forall j :: k <= j < |es| ==> es[j].inum != 0
    ensures Vacant(es, k) == |es|
    decreases |es| - k
  {
    if k < |es| { AllTaken(es, k + 1); }
  }

  // ---------- fs.c and sysfile.c ----------

  /** The outcome of create. */
  ghost predicate Created(fs: Fs, fs': Fs, d: nat, name: string, kind: Kind, r: Option<nat>)
    requires d < |fs.inodes| == |fs.refs|
  {
    match Lookup(fs.inodes[d].entries, name, 0)
    case Some(k) =>
      var i := fs.inodes[d].entries[k].inum;
      i < |fs.inodes| &&
      if kind == File && fs.inodes[i].kind == File then r == Some(i) && fs' == Hold(fs, i) else r == None && fs' == fs
    case None =>
      if r.Some? then Creates(fs, d, name, kind, r.value) && fs' == CreateFs(fs, d, name, kind, r.value)
      else fs' == fs && forall j :: 0 < j < |fs.inodes| ==> fs.inodes[j].kind != Free
  }

  // The name is there, and its inode is free.
  ghost predicate Dangles(fs: Fs, d: nat, name: string) {
    && d < |fs.inodes|
    && match Lookup(fs.inodes[d].entries, name, 0)
       case Some(k) => fs.inodes[d].entries[k].inum < |fs.inodes| && fs.inodes[fs.inodes[d].entries[k].inum].kind == Free
       case None => false
  }

  lemma EntryInRange(fs: Fs, d: nat, k: nat)
    requires DirsOk(fs) && DeadOk(fs) && 0 < d && IsDir(fs, d) && k < |fs.inodes[d].entries| && fs.inodes[d].entries[k].inum != 0
    ensures 0 < fs.inodes[d].entries[k].inum < |fs.inodes|
  {
    assert if Linked(fs, d) then DirOk(fs, d) else DeadDir(fs, d);
  }

  // A name other than the dots is found in linked directories only.
  lemma NamedInLinked(fs: Fs, d: nat, name: string, k: nat)
    requires DeadOk(fs) && IsDir(fs, d) && k < |fs.inodes[d].entries| && Matches(fs.inodes[d].entries[k], name)
    requires Key(name) != "." && Key(name) != ".."
    ensures Linked(fs, d)
  {
    assert !Linked(fs, d) ==> DeadDir(fs, d);
  }

  /** The outcome of unlink. */
  ghost predicate Unlinked(fs: Fs, fs': Fs, d: nat, name: string, r: int)
    requires d < |fs.inodes| == |fs.refs|
  {
    var slot := Lookup(fs.inodes[d].entries, name, 0);
    if slot.Some? && Enabled(fs, Unlink(d, slot.value)) then
      r == 0 && fs' == Apply(fs, Unlink(d, slot.value)) && NameGone(fs, fs', d, slot.value)
    else r == -1 && fs' == fs
  }

  class NameSpace {
    var inodes: seq<Inode>
    var refs: seq<nat>

    ghost function View(): Fs
      reads this
    {
      Fs(inodes, refs)
    }

    constructor (n: nat)
      requires n > ROOT
      ensures Inv(View()) && View() == Image(n)
    {
      inodes := seq(n, i => if i == ROOT then Inode(Dir, 1, [Dirent(ROOT, "."), Dirent(ROOT, "..")]) else Inode(Kind.Free, 0, []));
      refs := seq(n, _ => 0);
      new;
      ImageInv(n);
      assert View().inodes == Image(n).inodes;
    }

    /** dirlookup: the first slot with the name. */
    method DirLookup(d: nat, name: string) returns (slot: Option<nat>)
      requires d < |inodes|
      ensures slot == Lookup(inodes[d].entries, name, 0)
    {
      var es, k := inodes[d].entries, 0;
      while k < |es|
        invariant 0 <= k <= |es| && Lookup(es, name, 0) == Lookup(es, name, k)
      {
        if es[k].inum != 0 && es[k].name == Key(name) { return Some(k); }
        k := k + 1;
      }
      return None;
    }

    /** dirlink: -1 if the name is taken. */
    method DirLink(d: nat, name: string, i: nat) returns (r: int)
      requires d < |inodes|
      modifies this`inodes
      ensures r == if Absent(old(View()), d, name) then 0 else -1
      ensures View() == if r == 0 then AddEntry(old(View()), d, name, i) else old(View())
    {
      var slot := DirLookup(d, name);
      if slot.Some? { return -1; }
      var es, k := inodes[d].entries, 0;
      while k < |es| && es[k].inum != 0
        invariant 0 <= k <= |es| && Vacant(es, 0) == Vacant(es, k)
      {
        k := k + 1;
      }
      inodes := inodes[d := inodes[d].(entries := Put(es, k, Dirent(i, Key(name))))];
      return 0;
    }

    method IsDirEmpty(d: nat) returns (r: bool)
      requires d < |inodes|
      ensures r <==> DirEmpty(inodes[d].entries)
    {
      var k := 2;
      while k < |inodes[d].entries|
        invariant 2 <= k && forall j :: 2 <= j < k && j < |inodes[d].entries| ==> inodes[d].entries[j].inum == 0
      {
        if inodes[d].entries[k].inum != 0 { return false; }
        k := k + 1;
      }
      return true;
    }

    /** ialloc: the first free inode, or none (a panic). */
    method FindFree() returns (i: Option<nat>)
      ensures i.Some? ==> 0 < i.value < |inodes| && inodes[i.value].kind == Free
      ensures i.Some? ==> forall j :: 0 < j < i.value ==> inodes[j].kind != Free
      ensures i == None ==> forall j :: 0 < j < |inodes| ==> inodes[j].kind != Free
    {
      var k := 1;
      while k < |inodes|
        invariant 1 <= k && forall j :: 0 < j < k && j < |inodes| ==> inodes[j].kind != Free
      {
        if inodes[k].kind == Free { return Some(k); }
        k := k + 1;
      }
      return None;
    }

    // The writes of create for a new inode i.
    method CreateNew(d: nat, name: string, kind: Kind, i: nat)
      requires d < |inodes| == |refs| && i < |inodes| && d != i && Absent(View(), d, name)
      modifies this
      ensures View() == CreateFs(old(View()), d, name, kind, i)
    {
      refs := refs[i := refs[i] + 1];
      inodes := inodes[i := Inode(kind, 1, [])];
      if kind == Dir {
        inodes := inodes[i := inodes[i].(kind := Dir, entries := [Dirent(i, "."), Dirent(d, "..")])];
        inodes := inodes[d := inodes[d].(nlink := inodes[d].nlink + 1)];
      }
      var r := DirLink(d, name, i);
    }

    // The inode that a present entry names. In a removed directory ".." may name a free inode.
    method Resolve(d: nat, k: nat) returns (i: nat)
      requires Inv(View()) && IsDir(View(), d) && k < |inodes[d].entries| && inodes[d].entries[k].inum != 0
      ensures i == inodes[d].entries[k].inum && 0 < i < |inodes| && (Linked(View(), d) ==> inodes[i].kind != Free)
    {
      EntryInRange(View(), d, k);
      if Linked(View(), d) { NoDangling(View(), d, k); }
      i := inodes[d].entries[k].inum;
    }

    // create when the name is there.
    method OpenExisting(d: nat, k: nat, kind: Kind) returns (panics: bool, r: Option<nat>)
      requires Inv(View()) && IsDir(View(), d) && k < |inodes[d].entries| && inodes[d].entries[k].inum != 0
      modifies this`refs
      ensures Inv(View()) && inodes[d].entries[k].inum < |inodes|
      ensures panics <==> inodes[inodes[d].entries[k].inum].kind == Free
      ensures panics ==> !Linked(View(), d)
      ensures var i := inodes[d].entries[k].inum;
        if kind == File && inodes[i].kind == File then r == Some(i) && View() == Hold(old(View()), i)
        else r == None && View() == old(View())
    {
      var i := Resolve(d, k);
      if inodes[i].kind == Free { return true, None; }
      if kind == File && inodes[i].kind == File {
        HoldInv(View(), i);
        Iget(i);
        return false, Some(i);
      }
      return false, None;
    }

    /** iget, as far as references go. */
    method Iget(i: nat)
      requires i < |refs|
      modifies this`refs
      ensures View() == Hold(old(View()), i)
    {
      refs := refs[i := refs[i] + 1];
    }

    // create when it is not.
    method AllocNew(d: nat, name: string, kind: Kind) returns (r: Option<nat>)
      requires Inv(View()) && IsDir(View(), d) && Absent(View(), d, name) && kind != Free
      modifies this
      ensures Inv(View()) <==> old(Linked(View(), d)) || r == None
      ensures if r.Some? then
          old(Creates(View(), d, name, kind, r.value)) && View() == CreateFs(old(View()), d, name, kind, r.value)
        else View() == old(View()) && forall j :: 0 < j < |inodes| ==> inodes[j].kind != Free
      ensures r.Some? ==> NewInode(old(View()), View(), d, name, kind, r.value)
      ensures r.Some? ==> forall j :: 0 < j < r.value ==> old(inodes)[j].kind != Free
    {
      r := FindFree();
      if r.Some? {
        CreateMeans(View(), d, name, kind, r.value);
        CreateExactly(View(), d, name, kind, r.value);
        hide NewInode;
        CreateNew(d, name, kind, r.value);
      }
    }

    /** create in a directory, removed or not: an existing regular file is opened when a regular file is
        asked for; any other existing name is an error; a new name gets the first free inode, if any.
        The invariant is lost exactly by a new inode in a removed directory. ilock panics exactly for a
        name whose inode is free, which takes a removed directory. */
    method SysCreate(d: nat, name: string, kind: Kind) returns (panics: bool, r: Option<nat>)
      requires Inv(View()) && IsDir(View(), d) && kind != Free
      modifies this
      ensures panics <==> Dangles(old(View()), d, name)
      ensures panics ==> !old(Linked(View(), d)) && View() == old(View())
      ensures !panics ==> Created(old(View()), View(), d, name, kind, r)
      ensures r.Some? && old(Absent(View(), d, name)) ==>
        NewInode(old(View()), View(), d, name, kind, r.value) && forall j :: 0 < j < r.value ==> old(inodes)[j].kind != Free
      ensures Inv(View()) <==> old(Linked(View(), d)) || !old(Absent(View(), d, name)) || r == None
    {
      var slot := DirLookup(d, name);
      if slot.Some? {
        panics, r := OpenExisting(d, slot.value, kind);
      } else {
        panics := false;
        r := AllocNew(d, name, kind);
      }
    }

    // The writes of link: the count goes up first and comes down again if the new name is taken.
    method LinkNew(i: nat, d: nat, name: string) returns (r: int)
      requires i < |inodes| && d < |inodes| && i != d
      modifies this`inodes
      ensures r == if Absent(old(View()), d, name) then 0 else -1
      ensures View() == if r == 0 then LinkFs(old(View()), i, d, name) else old(View())
    {
      ghost var was := inodes;
      inodes := inodes[i := inodes[i].(nlink := inodes[i].nlink + 1)];
      r := DirLink(d, name, i);
      if r < 0 {
        inodes := inodes[i := inodes[i].(nlink := inodes[i].nlink - 1)];
        assert inodes == was;
      }
    }

    /** link of the inode named by entry `slot` of `from`, into directory d, either of them removed or not.
        The invariant is lost exactly by a new entry in a removed directory; ilock panics exactly if the
        entry names a free inode, which takes a removed directory. */
    method SysLink(from: nat, slot: nat, d: nat, name: string) returns (panics: bool, r: int)
      requires Inv(View()) && IsDir(View(), from) && slot < |inodes[from].entries| && inodes[from].entries[slot].inum != 0
      requires IsDir(View(), d)
      modifies this`inodes
      ensures old(inodes[from].entries[slot].inum) < |inodes| == |old(inodes)|
      ensures var i := old(inodes[from].entries[slot].inum);
        && (panics <==> old(inodes)[i].kind == Free)
        && (r == 0 <==> old(inodes)[i].kind != Free && old(inodes)[i].kind != Dir && old(Absent(View(), d, name)))
        && (r == 0 ==> View() == LinkFs(old(View()), i, d, name) && NewLink(old(View()), View(), i, d, name))
      ensures r != 0 ==> r == -1 && View() == old(View())
      ensures panics ==> !old(Linked(View(), from))
      ensures Inv(View()) <==> r != 0 || old(Linked(View(), d))
    {
      var i := Resolve(from, slot);
      if inodes[i].kind == Free { return true, -1; }
      if inodes[i].kind == Dir { return false, -1; }
      hide Inv;
      if Absent(View(), d, name) {
        LinkMeans(View(), i, d, name);
        LinkExactly(View(), i, d, name);
      }
      hide NewLink;
      panics := false;
      r := LinkNew(i, d, name);
    }

    /** unlink: -1 for the dots, for a missing name and for a directory that is not empty. A removed
        directory has no other names. */
    method SysUnlink(d: nat, name: string) returns (r: int)
      requires Inv(View()) && IsDir(View(), d)
      modifies this
      ensures Inv(View()) && Unlinked(old(View()), View(), d, name, r)
    {
      if Key(name) == "." || Key(name) == ".." { return -1; }
      var slot := DirLookup(d, name);
      if slot == None { return -1; }
      NamedInLinked(View(), d, name, slot.value);
      var q := Resolve(d, slot.value);
      if inodes[q].kind == Dir {
        var empty := IsDirEmpty(q);
        if !empty { return -1; }
      }
      UnlinkStep(View(), d, slot.value);
      UnlinkMeans(View(), d, slot.value);
      hide NameGone;
      Remove(d, slot.value);
      return 0;
    }

    // The writes of unlink.
    method Remove(d: nat, k: nat)
      requires |refs| == |inodes| && d < |inodes| && k < |inodes[d].entries| && inodes[d].entries[k].inum < |inodes|
      modifies this
      ensures View() == UnlinkFs(old(View()), d, k)
    {
      var q := inodes[d].entries[k].inum;
      var dir := inodes[q].kind == Dir;
      refs := refs[q := refs[q] + 1];
      inodes := inodes[d := inodes[d].(entries := inodes[d].entries[k := NO_ENTRY])];
      if dir {
        inodes := inodes[d := inodes[d].(nlink := inodes[d].nlink - 1)];
      }
      inodes := inodes[q := inodes[q].(nlink := inodes[q].nlink - 1)];
      Iput(q);
    }

    /** iput */
    method Iput(i: nat)
      requires i < |inodes| == |refs| && refs[i] > 0
      modifies this
      ensures View() == Drop(old(View()), i)
    {
      if inodes[i].nlink == 0 && refs[i] == 1 {
        inodes := inodes[i := Inode(Kind.Free, 0, [])];
      }
      refs := refs[i := refs[i] - 1];
    }
  }
}
