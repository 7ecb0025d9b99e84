/** The parallel merge of mergesort.c: what it computes, under every schedule of its threads, and
    exactly when the result is ordered. */
module ParallelMerge {
  import opened MergeSort

  const MIN_THREAD_ELEM: nat := 16

  // ---------- find_split_point ----------

  // The search keeps `high` inside the range, so it never answers "past the end".
  function Search(x: seq<Elem>, p: Elem, low: nat, high: nat): (s: nat)
    requires low <= high < |x|
    ensures low <= s <= high
    decreases high - low
  {
    if low == high then low else
      var mid := low + (high - low) / 2;
      if Le(p, x[mid]) then Search(x, p, low, mid) else Search(x, p, mid + 1, high)
  }

  function Split(x: seq<Elem>, p: Elem): (s: nat)
    ensures if x == [] then s == 0 else s < |x|
  {
    if x == [] then 0 else Search(x, p, 0, |x| - 1)
  }

  // Everything before the split point is smaller; everything from it on is not, if the last element is not.
  lemma {:induction false} SearchSplits(x: seq<Elem>, p: Elem, low: nat, high: nat)
    requires low <= high < |x| && Ordered(x) && forall i :: 0 <= i < |x| ==> Int32(p.key - x[i].key)
    ensures forall i :: low <= i < Search(x, p, low, high) ==> x[i].key < p.key
    ensures p.key <= x[high].key ==> forall i :: Search(x, p, low, high) <= i <= high ==> p.key <= x[i].key
    decreases high - low
  {
    if low < high {
      var mid := low + (high - low) / 2;
      LeExactly(p, x[mid]);
      if Le(p, x[mid]) { SearchSplits(x, p, low, mid); } else { SearchSplits(x, p, mid + 1, high); }
    }
  }

  /** If all elements are smaller, the answer is the last of them, which then lands on the wrong side. */
  lemma {:induction false} SearchCapped(x: seq<Elem>, p: Elem, low: nat, high: nat)
    requires low <= high < |x| && forall i :: low <= i <= high ==> Int32(p.key - x[i].key) && x[i].key < p.key
    ensures Search(x, p, low, high) == high
    decreases high - low
  {
    if low < high {
      var mid := low + (high - low) / 2;
      LeExactly(p, x[mid]);
      SearchCapped(x, p, mid + 1, high);
    }
  }

  // ---------- one split ----------

  // The shorter run is cut at the split point, the longer one around its middle element.
  datatype Cut = Cut(lx: seq<Elem>, ly: seq<Elem>, pivot: Elem, rx: seq<Elem>, ry: seq<Elem>)

  function CutShort(a: seq<Elem>, b: seq<Elem>): (c: Cut)
    requires b != []
    ensures c.lx + c.rx == a && c.ly + [c.pivot] + c.ry == b && (a != [] ==> c.rx != [])
    ensures |c.lx| + |c.ly| + 1 + |c.rx| + |c.ry| == |a| + |b|
  {
    var pi := (|b| - 1) / 2;
    var s := Split(a, b[pi]);
    Cut(a[..s], b[..pi], b[pi], a[s..], b[pi + 1..])
  }

  function CutRuns(x: seq<Elem>, y: seq<Elem>): (c: Cut)
    requires |x| > MIN_THREAD_ELEM
    ensures |c.lx| + |c.ly| + 1 + |c.rx| + |c.ry| == |x| + |y|
  {
    if |y| < |x| then CutShort(y, x) else CutShort(x, y)
  }

  /** merge_parallel_aux. */
  function ParMerge(x: seq<Elem>, y: seq<Elem>): (m: seq<Elem>)
    ensures |m| == |x| + |y|
    decreases |x| + |y|
  {
    if |x| <= MIN_THREAD_ELEM then SMerge(x, y) else
      var c := CutRuns(x, y);
      ParMerge(c.lx, c.ly) + [c.pivot] + ParMerge(c.rx, c.ry)
  }

  lemma ParMergeUnfold(x: seq<Elem>, y: seq<Elem>)
    requires |x| > MIN_THREAD_ELEM
    ensures var c := CutRuns(x, y); ParMerge(x, y) == ParMerge(c.lx, c.ly) + [c.pivot] + ParMerge(c.rx, c.ry)
  {
    hide CutRuns;
  }

  // ---------- conservation ----------

  lemma {:induction false} SMergeKeeps(x: seq<Elem>, y: seq<Elem>)
    ensures multiset(SMerge(x, y)) == multiset(x) + multiset(y)
    decreases |x| + |y|
  {
    if x != [] && y != [] {
      hide SMerge;
      SMergeUnfold(x, y);
      if Le(x[0], y[0]) {
        SMergeKeeps(x[1..], y);
        FrontBack(x, y, SMerge(x[1..], y));
      } else {
        SMergeKeeps(x, y[1..]);
        FrontBack(y, x, SMerge(x, y[1..]));
      }
    }
  }

  lemma FrontBack(x: seq<Elem>, y: seq<Elem>, m: seq<Elem>)
    requires x != [] && multiset(m) == multiset(x[1..]) + multiset(y)
    ensures multiset([x[0]] + m) == multiset(x) + multiset(y)
  {
    assert x == [x[0]] + x[1..];
  }

  lemma CutKeeps(x: seq<Elem>, y: seq<Elem>)
    requires |x| > MIN_THREAD_ELEM
    ensures var c := CutRuns(x, y);
      multiset(x) + multiset(y)
        == multiset(c.lx) + multiset(c.ly) + multiset{c.pivot} + (multiset(c.rx) + multiset(c.ry))
  {
    hide CutShort;
    var c := CutRuns(x, y);
    assert multiset(c.lx + c.rx) == multiset(c.lx) + multiset(c.rx);
    assert multiset(c.ly + [c.pivot] + c.ry) == multiset(c.ly) + multiset{c.pivot} + multiset(c.ry);
  }

  /** Every element arrives exactly once, whatever the two runs contain. */
  lemma {:induction false} ParMergeKeeps(x: seq<Elem>, y: seq<Elem>)
    ensures multiset(ParMerge(x, y)) == multiset(x) + multiset(y)
    decreases |x| + |y|
  {
    if |x| <= MIN_THREAD_ELEM {
      SMergeKeeps(x, y);
    } else {
      var c := CutRuns(x, y);
      ParMergeKeeps(c.lx, c.ly);
      ParMergeKeeps(c.rx, c.ry);
      CutKeeps(x, y);
    }
  }

  // ---------- order ----------

  ghost predicate AllLe(s: seq<Elem>, k: int) {
    forall e :: e in s ==> e.key <= k
  }

  ghost predicate AllGe(s: seq<Elem>, k: int) {
    forall e :: e in s ==> k <= e.key
  }

  lemma OrderedJoin(a: seq<Elem>, p: Elem, b: seq<Elem>)
    ensures Ordered(a + [p] + b) <==> Ordered(a) && Ordered(b) && AllLe(a, p.key) && AllGe(b, p.key)
  {
    var s := a + [p] + b;
    assert s[..|a|] == a && s[|a|] == p && s[|a| + 1..] == b;
    if Ordered(s) {
      forall e | e in a ensures e.key <= p.key { }
      forall e | e in b ensures p.key <= e.key { }
    }
    if Ordered(a) && Ordered(b) && AllLe(a, p.key) && AllGe(b, p.key) {
      forall i, j | 0 <= i < j < |s| ensures s[i].key <= s[j].key {
        assert i < |a| ==> s[i] in a;
        assert j > |a| ==> s[j] in b;
      }
    }
  }

  lemma OrderedPair(a: seq<Elem>, k: int, b: seq<Elem>)
    requires AllLe(a, k) && AllGe(b, k)
    ensures Ordered(a + b) <==> Ordered(a) && Ordered(b)
  {
    var s := a + b;
    assert s[..|a|] == a && s[|a|..] == b;
    if Ordered(a) && Ordered(b) {
      forall i, j | 0 <= i < j < |s| ensures s[i].key <= s[j].key {
        assert i < |a| ==> s[i] in a;
        assert j >= |a| ==> s[j] in b;
      }
    }
  }

  // Merging keeps each run in its own order, so an ordered result needs ordered runs.
  lemma {:induction false} SMergeExactly(x: seq<Elem>, y: seq<Elem>)
    requires Comparable(x + y)
    ensures Ordered(SMerge(x, y)) <==> Ordered(x) && Ordered(y)
  {
    if Ordered(x) && Ordered(y) { SMergeOrdered(x, y); }
    if Ordered(SMerge(x, y)) { SMergeNeeds(x, y); }
  }

  lemma {:induction false} SMergeNeeds(x: seq<Elem>, y: seq<Elem>)
    requires Ordered(SMerge(x, y))
    ensures Ordered(x) && Ordered(y)
    decreases |x| + |y|
  {
    if x != [] && y != [] {
      hide SMerge;
      SMergeUnfold(x, y);
      var m := SMerge(x, y);
      if Le(x[0], y[0]) {
        assert m[1..] == SMerge(x[1..], y);
        SMergeNeeds(x[1..], y);
        SMergeKeeps(x[1..], y);
        FirstSmallest(x, m);
      } else {
        assert m[1..] == SMerge(x, y[1..]);
        SMergeNeeds(x, y[1..]);
        SMergeKeeps(x, y[1..]);
        FirstSmallest(y, m);
      }
    }
  }

  lemma FirstSmallest(x: seq<Elem>, m: seq<Elem>)
    requires x != [] && m != [] && x[0] == m[0] && Ordered(m) && Ordered(x[1..])
    requires multiset(x[1..]) <= multiset(m[1..])
    ensures Ordered(x)
  {
    forall i | 0 < i < |x| ensures x[0].key <= x[i].key {
      assert x[i] == x[1..][i - 1];
      assert x[i] in multiset(x[1..]);
      assert x[i] in m[1..];
    }
    assert forall i :: 0 < i < |x| ==> x[i] == x[1..][i - 1];
  }

  /** The split point is right: the shorter run is empty or does not lie wholly below the pivot. */
  predicate SplitFine(c: Cut) {
    c.rx == [] || Le(c.pivot, c.rx[|c.rx| - 1])
  }

  predicate SplitsFine(x: seq<Elem>, y: seq<Elem>)
    decreases |x| + |y|
  {
    |x| <= MIN_THREAD_ELEM ||
    (var c := CutRuns(x, y); SplitFine(c) && SplitsFine(c.lx, c.ly) && SplitsFine(c.rx, c.ry))
  }

  ghost predicate CutOrdered(c: Cut) {
    && Ordered(c.lx) && Ordered(c.ly) && Ordered(c.rx) && Ordered(c.ry)
    && AllLe(c.lx, c.pivot.key) && AllLe(c.ly, c.pivot.key) && AllGe(c.rx, c.pivot.key) && AllGe(c.ry, c.pivot.key)
  }

  lemma ComparableSub(s: seq<Elem>, t: seq<Elem>)
    requires Comparable(s) && forall e :: e in t ==> e in s
    ensures Comparable(t)
  {
    forall i, j | 0 <= i < |t| && 0 <= j < |t| ensures Int32(t[i].key - t[j].key) {
      assert t[i] in t && t[j] in t;
    }
  }

  lemma PivotComparable(a: seq<Elem>, b: seq<Elem>, c: Cut)
    requires c.lx + c.rx == a && c.ly + [c.pivot] + c.ry == b && Comparable(a + b)
    ensures forall i :: 0 <= i < |a| ==> Int32(c.pivot.key - a[i].key)
    ensures Comparable(c.lx + c.ly) && Comparable(c.rx + c.ry)
  {
    var s := a + b;
    assert s[|a| + |c.ly|] == c.pivot;
    assert forall i :: 0 <= i < |a| ==> s[i] == a[i];
    ComparableSub(s, c.lx + c.ly);
    ComparableSub(s, c.rx + c.ry);
  }

  lemma CutNeeds(a: seq<Elem>, b: seq<Elem>, c: Cut)
    requires c.lx + c.rx == a && c.ly + [c.pivot] + c.ry == b && Comparable(a + b) && CutOrdered(c)
    ensures Ordered(a) && Ordered(b) && SplitFine(c)
  {
    OrderedJoin(c.ly, c.pivot, c.ry);
    OrderedPair(c.lx, c.pivot.key, c.rx);
    PivotComparable(a, b, c);
    if c.rx != [] {
      assert a[|a| - 1] == c.rx[|c.rx| - 1];
      LeExactly(c.pivot, c.rx[|c.rx| - 1]);
    }
  }

  lemma SplitWorks(a: seq<Elem>, p: Elem)
    requires Ordered(a) && a != [] && (forall i :: 0 <= i < |a| ==> Int32(p.key - a[i].key)) && Le(p, a[|a| - 1])
    ensures var s := Split(a, p);
      AllLe(a[..s], p.key) && AllGe(a[s..], p.key) && Ordered(a[..s]) && Ordered(a[s..])
  {
    LeExactly(p, a[|a| - 1]);
    SearchSplits(a, p, 0, |a| - 1);
  }

  lemma CutSuffices(a: seq<Elem>, b: seq<Elem>)
    requires b != [] && Comparable(a + b) && Ordered(a) && Ordered(b) && SplitFine(CutShort(a, b))
    ensures CutOrdered(CutShort(a, b))
  {
    hide Split;
    var c := CutShort(a, b);
    PivotComparable(a, b, c);
    OrderedJoin(c.ly, c.pivot, c.ry);
    if a != [] {
      assert a[|a| - 1] == c.rx[|c.rx| - 1];
      SplitWorks(a, c.pivot);
    }
  }

  // Everything is on its side of the pivot exactly if the runs are ordered and the split is fine.
  lemma CutExactly(x: seq<Elem>, y: seq<Elem>)
    requires |x| > MIN_THREAD_ELEM && Comparable(x + y)
    ensures CutOrdered(CutRuns(x, y)) <==> Ordered(x) && Ordered(y) && SplitFine(CutRuns(x, y))
    ensures Comparable(CutRuns(x, y).lx + CutRuns(x, y).ly) && Comparable(CutRuns(x, y).rx + CutRuns(x, y).ry)
  {
    hide CutShort, Ordered, SplitFine, CutOrdered;
    var a, b := if |y| < |x| then y else x, if |y| < |x| then x else y;
    var c := CutShort(a, b);
    ComparableAgain(x + y, a + b);
    PivotComparable(a, b, c);
    if CutOrdered(c) { CutNeeds(a, b, c); }
    if Ordered(a) && Ordered(b) && SplitFine(c) { CutSuffices(a, b); }
  }

  lemma MembersLe(s: seq<Elem>, x: seq<Elem>, y: seq<Elem>, k: int)
    requires multiset(s) == multiset(x) + multiset(y)
    ensures AllLe(s, k) <==> AllLe(x, k) && AllLe(y, k)
    ensures AllGe(s, k) <==> AllGe(x, k) && AllGe(y, k)
  {
    forall e ensures e in s <==> e in x || e in y {
      assert e in s <==> e in multiset(s);
      assert e in x <==> e in multiset(x);
      assert e in y <==> e in multiset(y);
    }
  }

  /** The parallel merge is ordered exactly if both runs are and no split misplaces an element. */
  lemma {:induction false} ParMergeExactly(x: seq<Elem>, y: seq<Elem>)
    requires Comparable(x + y)
    ensures Ordered(ParMerge(x, y)) <==> Ordered(x) && Ordered(y) && SplitsFine(x, y)
    decreases |x| + |y|
  {
    if |x| <= MIN_THREAD_ELEM {
      SMergeExactly(x, y);
    } else {
      hide Ordered, CutRuns, SplitFine, AllLe, AllGe;
      var c := CutRuns(x, y);
      CutExactly(x, y);
      ParMergeExactly(c.lx, c.ly);
      ParMergeExactly(c.rx, c.ry);
      ParMergeKeeps(c.lx, c.ly);
      ParMergeKeeps(c.rx, c.ry);
      MembersLe(ParMerge(c.lx, c.ly), c.lx, c.ly, c.pivot.key);
      MembersLe(ParMerge(c.rx, c.ry), c.rx, c.ry, c.pivot.key);
      OrderedJoin(ParMerge(c.lx, c.ly), c.pivot, ParMerge(c.rx, c.ry));
    }
  }

  // ---------- schedules ----------

  /** A store into the output array. The threads of a merge read `arr` and store into `B` only. */
  datatype Store = Store(at: nat, value: Elem)

  // w interleaves the stores of two threads.
  predicate Interleaves(u: seq<Store>, v: seq<Store>, w: seq<Store>)
    decreases |w|
  {
    if w == [] then u == [] && v == [] else
      || (u != [] && u[0] == w[0] && Interleaves(u[1..], v, w[1..]))
      || (v != [] && v[0] == w[0] && Interleaves(u, v[1..], w[1..]))
  }

  // The stores of a sequential loop that writes t from `start` on.
  function Stores(start: nat, t: seq<Elem>): (w: seq<Store>)
    ensures |w| == |t|
  {
    seq(|t|, i requires 0 <= i < |t| => Store(start + i, t[i]))
  }

  /** w is what merge_parallel_aux may store, in time order: the pivot first, then the stores of the
      calling thread and of the spawned one in any interleaving. */
  ghost predicate Schedule(x: seq<Elem>, y: seq<Elem>, start: nat, w: seq<Store>)
    decreases |x| + |y|
  {
    if |x| <= MIN_THREAD_ELEM then w == Stores(start, SMerge(x, y)) else
      var c := CutRuns(x, y);
      var n := |c.lx| + |c.ly|;
      exists u, v ::
        && Schedule(c.lx, c.ly, start, u) && Schedule(c.rx, c.ry, start + n + 1, v)
        && w != [] && w[0] == Store(start + n, c.pivot) && Interleaves(u, v, w[1..])
  }

  lemma {:induction false} InterleavesKeeps(u: seq<Store>, v: seq<Store>, w: seq<Store>)
    requires Interleaves(u, v, w)
    ensures multiset(w) == multiset(u) + multiset(v)
    decreases |w|
  {
    if w != [] {
      assert w == [w[0]] + w[1..];
      if u != [] && u[0] == w[0] && Interleaves(u[1..], v, w[1..]) {
        InterleavesKeeps(u[1..], v, w[1..]);
        assert u == [u[0]] + u[1..];
      } else {
        InterleavesKeeps(u, v[1..], w[1..]);
        assert v == [v[0]] + v[1..];
      }
    }
  }

  lemma StoresJoin(start: nat, a: seq<Elem>, p: Elem, b: seq<Elem>)
    ensures Stores(start, a + [p] + b) == Stores(start, a) + [Store(start + |a|, p)] + Stores(start + |a| + 1, b)
  {
  }

  /** Whatever the schedule, the threads together store each element of the merge once, in its place. */
  lemma {:induction false} ScheduleStores(x: seq<Elem>, y: seq<Elem>, start: nat, w: seq<Store>)
    requires Schedule(x, y, start, w)
    ensures multiset(w) == multiset(Stores(start, ParMerge(x, y)))
    decreases |x| + |y|
  {
    hide Stores, CutRuns, Interleaves, SMerge;
    if |x| > MIN_THREAD_ELEM {
      hide ParMerge;
      var c := CutRuns(x, y);
      var n := |c.lx| + |c.ly|;
      var u, v :|
        && Schedule(c.lx, c.ly, start, u) && Schedule(c.rx, c.ry, start + n + 1, v)
        && w != [] && w[0] == Store(start + n, c.pivot) && Interleaves(u, v, w[1..]);
      hide Schedule;
      ScheduleStores(c.lx, c.ly, start, u);
      ScheduleStores(c.rx, c.ry, start + n + 1, v);
      ForkStores(x, y, start, u, v, w);
    }
  }

  lemma ForkStores(x: seq<Elem>, y: seq<Elem>, start: nat, u: seq<Store>, v: seq<Store>, w: seq<Store>)
    requires |x| > MIN_THREAD_ELEM && w != [] && Interleaves(u, v, w[1..])
    requires var c := CutRuns(x, y);
      var n := |c.lx| + |c.ly|;
      && w[0] == Store(start + n, c.pivot)
      && multiset(u) == multiset(Stores(start, ParMerge(c.lx, c.ly)))
      && multiset(v) == multiset(Stores(start + n + 1, ParMerge(c.rx, c.ry)))
    ensures multiset(w) == multiset(Stores(start, ParMerge(x, y)))
  {
    hide Stores, CutRuns, Interleaves, ParMerge;
    var c := CutRuns(x, y);
    var n := |c.lx| + |c.ly|;
    ParMergeUnfold(x, y);
    InterleavesKeeps(u, v, w[1..]);
    StoresJoin(start, ParMerge(c.lx, c.ly), c.pivot, ParMerge(c.rx, c.ry));
    PivotFirst(w, u, v, Stores(start, ParMerge(c.lx, c.ly)), Stores(start + n + 1, ParMerge(c.rx, c.ry)));
  }

  lemma PivotFirst(w: seq<Store>, u: seq<Store>, v: seq<Store>, a: seq<Store>, b: seq<Store>)
    requires w != [] && multiset(w[1..]) == multiset(u) + multiset(v)
    requires multiset(u) == multiset(a) && multiset(v) == multiset(b)
    ensures multiset(w) == multiset(a + [w[0]] + b)
  {
    assert w == [w[0]] + w[1..];
  }

  // Perform the stores in order.
  function Perform(b: seq<Elem>, w: seq<Store>): (r: seq<Elem>)
    requires forall e :: e in w ==> e.at < |b|
    ensures |r| == |b|
    decreases |w|
  {
    if w == [] then b else Perform(b[w[0].at := w[0].value], w[1..])
  }

  lemma {:induction false} PerformAt(b: seq<Elem>, w: seq<Store>, i: nat, value: Elem)
    requires (forall e :: e in w ==> e.at < |b|) && i < |b|
    requires forall e :: e in w && e.at == i ==> e.value == value
    requires b[i] == value || Store(i, value) in w
    ensures Perform(b, w)[i] == value
    decreases |w|
  {
    if w != [] {
      assert w == [w[0]] + w[1..];
      PerformAt(b[w[0].at := w[0].value], w[1..], i, value);
    }
  }

  lemma StoresMembers(w: seq<Store>, start: nat, t: seq<Elem>)
    requires multiset(w) == multiset(Stores(start, t))
    ensures forall e :: e in w <==> start <= e.at < start + |t| && e.value == t[e.at - start]
  {
    forall e ensures e in w <==> start <= e.at < start + |t| && e.value == t[e.at - start] {
      assert e in w <==> e in multiset(w);
      assert e in multiset(Stores(start, t)) <==> e in Stores(start, t);
      if start <= e.at < start + |t| { assert Stores(start, t)[e.at - start] == Store(e.at, t[e.at - start]); }
    }
  }

  // The stores of t from start on, in any order, leave t there and change nothing else.
  lemma AnyOrder(b: seq<Elem>, start: nat, t: seq<Elem>, w: seq<Store>)
    requires multiset(w) == multiset(Stores(start, t)) && start + |t| <= |b|
    ensures forall e :: e in w ==> e.at < |b|
    ensures Wrote(b, start, t, Perform(b, w))
  {
    StoresMembers(w, start, t);
    var r := Perform(b, w);
    forall i: nat | i < |b| ensures r[i] == if start <= i < start + |t| then t[i - start] else b[i] {
      PerformAt(b, w, i, if start <= i < start + |t| then t[i - start] else b[i]);
    }
  }

  /** Under every schedule the output range ends up holding the merge, and nothing else changes. */
  lemma EveryScheduleMerges(x: seq<Elem>, y: seq<Elem>, start: nat, w: seq<Store>, b: seq<Elem>)
    requires Schedule(x, y, start, w) && start + |x| + |y| <= |b|
    ensures forall e :: e in w ==> e.at < |b|
    ensures Wrote(b, start, ParMerge(x, y), Perform(b, w))
  {
    hide ParMerge, Schedule, Wrote;
    ScheduleStores(x, y, start, w);
    AnyOrder(b, start, ParMerge(x, y), w);
  }

  /** No two stores of a merge touch the same cell, so no two threads race. */
  lemma NoRace(x: seq<Elem>, y: seq<Elem>, start: nat, w: seq<Store>, i: nat, j: nat)
    requires Schedule(x, y, start, w) && i < j < |w|
    ensures w[i].at != w[j].at
  {
    hide ParMerge, Schedule;
    var t := ParMerge(x, y);
    ScheduleStores(x, y, start, w);
    StoresMembers(w, start, t);
    if w[i].at == w[j].at {
      assert w[i] in w && w[j] in w;
      TwiceCounted(w, i, j);
      OnceStored(start, t, w[i]);
    }
  }

  lemma TwiceCounted(w: seq<Store>, i: nat, j: nat)
    requires i < j < |w| && w[i] == w[j]
    ensures multiset(w)[w[i]] >= 2
  {
    assert w == w[..i] + [w[i]] + w[i + 1..j] + [w[j]] + w[j + 1..];
  }

  lemma {:induction false} OnceStored(start: nat, t: seq<Elem>, e: Store)
    ensures multiset(Stores(start, t))[e] <= 1
  {
    if t != [] {
      var n := |t| - 1;
      OnceStored(start, t[..n], e);
      assert Stores(start, t) == Stores(start, t[..n]) + [Store(start + n, t[n])];
      if e == Store(start + n, t[n]) {
        assert e !in Stores(start, t[..n]);
      }
    }
  }

  // ---------- the code ----------

  /** find_split_point in arr[l..r], both ends included. */
  method FindSplitPoint(arr: array<Elem>, l: nat, r: int, p: Elem) returns (s: nat)
    requires l - 1 <= r < arr.Length
    ensures s == l + Split(arr[..][l..r + 1], p)
  {
    hide Search, Compare;
    ghost var x := arr[..][l..r + 1];
    var low, high := l, r;
    while low < high
      invariant l <= low && high <= r && (l <= r ==> low <= high) && (l > r ==> low == l)
      invariant l <= r ==> Search(x, p, low - l, high - l) == Split(x, p)
      decreases high - low
    {
      var mid := low + (high - low) / 2;
      SearchStep(x, p, low - l, high - l);
      assert x[mid - l] == arr[mid];
      if Le(p, arr[mid]) { high := mid; } else { low := mid + 1; }
    }
    if l <= r { SearchStep(x, p, low - l, high - l); }
    s := low;
  }

  lemma SearchStep(x: seq<Elem>, p: Elem, low: nat, high: nat)
    requires low <= high < |x|
    ensures low == high ==> Search(x, p, low, high) == low
    ensures low < high ==>
      var mid := low + (high - low) / 2;
      Search(x, p, low, high) == if Le(p, x[mid]) then Search(x, p, low, mid) else Search(x, p, mid + 1, high)
  {
  }

  // A middle element, the part after it and the part before it, in this order.
  lemma WroteAround(b0: seq<Elem>, start: nat, a: seq<Elem>, p: Elem, z: seq<Elem>, k: nat,
                    c: seq<Elem>, b1: seq<Elem>, b2: seq<Elem>)
    requires k == start + |a| < |b0| && c == b0[k := p] && Wrote(c, k + 1, z, b1) && Wrote(b1, start, a, b2)
    ensures Wrote(b0, start, a + [p] + z, b2)
  {
    var n := k + 1 + |z|;
    assert b2[k..][1..] == b2[k + 1..] && b1[k..][1..] == b1[k + 1..];
    assert b2[k + 1..n] == b2[k + 1..][..|z|] && b1[k + 1..n] == b1[k + 1..][..|z|];
    assert b2[n..] == b2[k + 1..][|z|..] && b1[n..] == b1[k + 1..][|z|..];
    assert b1[..start] == b1[..k + 1][..start] && c[..start] == c[..k + 1][..start];
    assert b2[k] == b2[k..][0] && b1[k] == b1[k..][0] && b1[k] == b1[..k + 1][k] && c[k] == c[..k + 1][k];
    assert b2[start..n] == b2[start..k] + [b2[k]] + b2[k + 1..n];
    assert c[n..] == b0[n..] && c[..start] == b0[..start];
  }

  /** merge_parallel_aux, the spawned thread run to its end before the caller's own half. */
  method MergeParallelAux(arr: array<Elem>, l1: nat, r1: int, l2: nat, r2: int, B: array<Elem>, start: nat)
    requires arr != B && l1 - 1 <= r1 < arr.Length && l2 - 1 <= r2 < arr.Length
    requires start + (r1 - l1 + 1) + (r2 - l2 + 1) <= B.Length
    modifies B
    ensures Wrote(old(B[..]), start, ParMerge(arr[..][l1..r1 + 1], arr[..][l2..r2 + 1]), B[..])
    decreases r1 - l1 + r2 - l2 + 2, 2
  {
    if r1 - l1 + 1 <= MIN_THREAD_ELEM {
      MergeLoop(arr[..][l1..r1 + 1], arr[..][l2..r2 + 1], B, start);
    } else if r2 - l2 < r1 - l1 {
      ParMergeUnfold(arr[..][l1..r1 + 1], arr[..][l2..r2 + 1]);
      MergeAround(arr, l2, r2, l1, r1, B, start);
    } else {
      ParMergeUnfold(arr[..][l1..r1 + 1], arr[..][l2..r2 + 1]);
      MergeAround(arr, l1, r1, l2, r2, B, start);
    }
  }

  // The rest of merge_parallel_aux, after the swap: the first range is not longer than the second.
  method MergeAround(arr: array<Elem>, l1: nat, r1: int, l2: nat, r2: int, B: array<Elem>, start: nat)
    requires arr != B && l1 - 1 <= r1 < arr.Length && l2 <= r2 < arr.Length
    requires start + (r1 - l1 + 1) + (r2 - l2 + 1) <= B.Length
    modifies B
    ensures var c := CutShort(arr[..][l1..r1 + 1], arr[..][l2..r2 + 1]);
      Wrote(old(B[..]), start, ParMerge(c.lx, c.ly) + [c.pivot] + ParMerge(c.rx, c.ry), B[..])
    decreases r1 - l1 + r2 - l2 + 2, 1
  {
    hide ParMerge, Wrote, CutShort, Split;
    var pi := l2 + (r2 - l2) / 2;
    var s := FindSplitPoint(arr, l1, r1, arr[pi]);
    CutRanges(arr[..], l1, r1 + 1, l2, r2 + 1, s, pi);
    MergeHalves(arr, l1, s, r1, l2, pi, r2, B, start);
  }

  // The store of the pivot, and the two halves.
  method MergeHalves(arr: array<Elem>, l1: nat, s: nat, r1: int, l2: nat, pi: nat, r2: int, B: array<Elem>, start: nat)
    requires arr != B && l1 <= s <= r1 + 1 <= arr.Length && l2 <= pi <= r2 < arr.Length
    requires start + (r1 - l1 + 1) + (r2 - l2 + 1) <= B.Length
    modifies B
    ensures Wrote(old(B[..]), start,
      ParMerge(arr[..][l1..s], arr[..][l2..pi]) + [arr[pi]] + ParMerge(arr[..][s..r1 + 1], arr[..][pi + 1..r2 + 1]), B[..])
    decreases r1 - l1 + r2 - l2 + 2, 0
  {
    hide ParMerge, Wrote;
    ghost var a, b0 := arr[..], B[..];
    ghost var left, right := ParMerge(a[l1..s], a[l2..pi]), ParMerge(a[s..r1 + 1], a[pi + 1..r2 + 1]);
    var k := start + (s - l1) + (pi - l2);
    B[k] := arr[pi];
    ghost var b1 := B[..];
    assert b1 == b0[k := a[pi]] && arr[..] == a;
    MergeParallelAux(arr, s, r1, pi + 1, r2, B, k + 1);
    ghost var b2 := B[..];
    assert arr[..] == a && Wrote(b1, k + 1, right, b2);
    MergeParallelAux(arr, l1, s - 1, l2, pi - 1, B, start);
    WroteAround(b0, start, left, a[pi], right, k, b1, b2, B[..]);
  }

  lemma CutRanges(arr: seq<Elem>, l1: nat, r1: nat, l2: nat, r2: nat, s: nat, pi: nat)
    requires l1 <= r1 <= |arr| && l2 < r2 <= |arr| && pi == l2 + (r2 - 1 - l2) / 2
    requires s == l1 + Split(arr[l1..r1], arr[pi])
    ensures l1 <= s <= r1
    ensures CutShort(arr[l1..r1], arr[l2..r2]) == Cut(arr[l1..s], arr[l2..pi], arr[pi], arr[s..r1], arr[pi + 1..r2])
  {
    hide Split;
    var a, b := arr[l1..r1], arr[l2..r2];
    assert b[pi - l2] == arr[pi] && (|b| - 1) / 2 == pi - l2;
    assert a[..s - l1] == arr[l1..s] && a[s - l1..] == arr[s..r1];
    assert b[..pi - l2] == arr[l2..pi] && b[pi - l2 + 1..] == arr[pi + 1..r2];
  }
}
