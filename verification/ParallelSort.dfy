/** The parallel merge sort of mergesort.c: what it computes, under every schedule of its threads, and
    exactly when the result is sorted. */
module ParallelSort {
  import opened MergeSort
  import opened ParallelMerge

  // ---------- merge_sort_threaded ----------

  /** merge_sort_threaded: insertion sort for short ranges, else two halves and a parallel merge. */
  function ParSort(s: seq<Elem>): (t: seq<Elem>)
    ensures |t| == |s|
    decreases |s|
  {
    if |s| <= MIN_THREAD_ELEM then ISort(s) else
      var m := (|s| - 1) / 2 + 1;
      ParMerge(ParSort(s[..m]), ParSort(s[m..]))
  }

  lemma {:induction false} InsertKeeps(s: seq<Elem>, x: Elem)
    ensures multiset(Insert(s, x)) == multiset(s) + multiset{x}
  {
    if s != [] && !Le(s[|s| - 1], x) {
      InsertKeeps(s[..|s| - 1], x);
      assert s == s[..|s| - 1] + [s[|s| - 1]];
    }
  }

  lemma {:induction false} ISortKeeps(s: seq<Elem>)
    ensures multiset(ISort(s)) == multiset(s)
  {
    if s != [] {
      ISortKeeps(s[..|s| - 1]);
      InsertKeeps(ISort(s[..|s| - 1]), s[|s| - 1]);
      assert s == s[..|s| - 1] + [s[|s| - 1]];
    }
  }

  /** The parallel sort permutes its input, on every input. */
  lemma {:induction false} ParSortKeeps(s: seq<Elem>)
    ensures multiset(ParSort(s)) == multiset(s)
    decreases |s|
  {
    if |s| <= MIN_THREAD_ELEM {
      ISortKeeps(s);
    } else {
      ParSortUnfold(s);
      hide ParMerge, ParSort;
      var m := (|s| - 1) / 2 + 1;
      ParSortKeeps(s[..m]);
      ParSortKeeps(s[m..]);
      ParMergeKeeps(ParSort(s[..m]), ParSort(s[m..]));
      assert multiset(s) == multiset(s[..m]) + multiset(s[m..]) by { assert s == s[..m] + s[m..]; }
    }
  }

  lemma ParSortUnfold(s: seq<Elem>)
    requires |s| > MIN_THREAD_ELEM
    ensures var m := (|s| - 1) / 2 + 1; ParSort(s) == ParMerge(ParSort(s[..m]), ParSort(s[m..]))
  {
    hide ParMerge;
  }

  // ---------- keys ----------

  ghost predicate SameKeys(x: seq<Elem>, y: seq<Elem>) {
    |x| == |y| && forall i :: 0 <= i < |x| ==> x[i].key == y[i].key
  }

  // How many keys are at most k.
  function CountLe(s: seq<Elem>, k: int): (n: nat)
    ensures n <= |s|
  {
    if s == [] then 0 else (if s[0].key <= k then 1 else 0) + CountLe(s[1..], k)
  }

  lemma {:induction false} CountConcat(s: seq<Elem>, t: seq<Elem>, k: int)
    ensures CountLe(s + t, k) == CountLe(s, k) + CountLe(t, k)
  {
    if s == [] {
      assert s + t == t;
    } else {
      CountConcat(s[1..], t, k);
      assert (s + t)[1..] == s[1..] + t;
    }
  }

  lemma {:induction false} CountPermuted(s: seq<Elem>, t: seq<Elem>, k: int)
    requires multiset(s) == multiset(t)
    ensures CountLe(s, k) == CountLe(t, k)
  {
    if s == [] {
      assert |multiset(t)| == |t|;
    } else {
      var j := SourceOf(s, t, s[0]);
      var a, b := t[..j], t[j + 1..];
      WithoutOne(s, t, j);
      assert t == a + [t[j]] + b;
      CountPermuted(s[1..], a + b, k);
      CountConcat(a, b, k);
      CountConcat(a + [t[j]], b, k);
      CountConcat(a, [t[j]], k);
    }
  }

  lemma WithoutOne(s: seq<Elem>, t: seq<Elem>, j: nat)
    requires s != [] && j < |t| && t[j] == s[0] && multiset(s) == multiset(t)
    ensures multiset(s[1..]) == multiset(t[..j] + t[j + 1..])
  {
    var a, b := t[..j], t[j + 1..];
    assert t == a + [t[j]] + b && s == [s[0]] + s[1..];
    forall e ensures multiset(s[1..])[e] == multiset(a + b)[e] {
      assert multiset(s)[e] == multiset{s[0]}[e] + multiset(s[1..])[e];
      assert multiset(t)[e] == multiset(a)[e] + multiset{t[j]}[e] + multiset(b)[e];
    }
  }

  lemma SourceOf(x: seq<Elem>, s: seq<Elem>, e: Elem) returns (i: nat)
    requires multiset(x) == multiset(s) && e in x
    ensures i < |s| && s[i] == e
  {
    assert e in multiset(x);
    assert e in s;
    i :| 0 <= i < |s| && s[i] == e;
  }

  // In an ordered sequence the i-th key is at most k exactly if more than i keys are.
  lemma {:induction false} CountOrdered(s: seq<Elem>, k: int, i: nat)
    requires Ordered(s) && i < |s|
    ensures i < CountLe(s, k) <==> s[i].key <= k
  {
    if i > 0 {
      CountOrdered(s[1..], k, i - 1);
    } else if s[0].key > k {
      NoneLe(s, k);
    }
  }

  lemma {:induction false} NoneLe(s: seq<Elem>, k: int)
    requires forall i :: 0 <= i < |s| ==> s[i].key > k
    ensures CountLe(s, k) == 0
  {
    if s != [] { NoneLe(s[1..], k); }
  }

  /** Two ordered sequences of the same records have the same keys. */
  lemma OrderedKeys(s: seq<Elem>, t: seq<Elem>)
    requires Ordered(s) && Ordered(t) && multiset(s) == multiset(t)
    ensures SameKeys(s, t)
  {
    assert |multiset(s)| == |s| && |multiset(t)| == |t|;
    forall i | 0 <= i < |s| ensures s[i].key == t[i].key {
      CountPermuted(s, t, s[i].key);
      CountPermuted(s, t, t[i].key);
      CountOrdered(s, s[i].key, i);
      CountOrdered(t, s[i].key, i);
      CountOrdered(s, t[i].key, i);
      CountOrdered(t, t[i].key, i);
    }
  }

  lemma {:induction false} SearchKeys(x: seq<Elem>, y: seq<Elem>, p: Elem, q: Elem, low: nat, high: nat)
    requires SameKeys(x, y) && p.key == q.key && low <= high < |x|
    ensures Search(x, p, low, high) == Search(y, q, low, high)
    decreases high - low
  {
    if low < high {
      var mid := low + (high - low) / 2;
      assert Le(p, x[mid]) == Le(q, y[mid]);
      SearchKeys(x, y, p, q, low, mid);
      SearchKeys(x, y, p, q, mid + 1, high);
    }
  }

  ghost predicate SameCuts(c: Cut, d: Cut) {
    && SameKeys(c.lx, d.lx) && SameKeys(c.ly, d.ly) && c.pivot.key == d.pivot.key && SameKeys(c.rx, d.rx) && SameKeys(c.ry, d.ry)
  }

  lemma CutKeys(a: seq<Elem>, b: seq<Elem>, a': seq<Elem>, b': seq<Elem>)
    requires b != [] && SameKeys(a, a') && SameKeys(b, b')
    ensures SameCuts(CutShort(a, b), CutShort(a', b'))
  {
    SplitKeys(a, a', b[(|b| - 1) / 2], b'[(|b| - 1) / 2]);
    hide Split;
    var pi := (|b| - 1) / 2;
    SlicedKeys(a, a', Split(a, b[pi]));
    SlicedKeys(b, b', pi);
    SlicedKeys(b, b', pi + 1);
    hide SameKeys;
  }

  lemma SplitKeys(x: seq<Elem>, y: seq<Elem>, p: Elem, q: Elem)
    requires SameKeys(x, y) && p.key == q.key
    ensures Split(x, p) == Split(y, q)
  {
    hide Search;
    if x != [] { SearchKeys(x, y, p, q, 0, |x| - 1); }
  }

  lemma SlicedKeys(x: seq<Elem>, y: seq<Elem>, k: nat)
    requires SameKeys(x, y) && k <= |x|
    ensures SameKeys(x[..k], y[..k]) && SameKeys(x[k..], y[k..])
  {
  }

  lemma RunKeys(x: seq<Elem>, y: seq<Elem>, x': seq<Elem>, y': seq<Elem>)
    requires SameKeys(x, x') && SameKeys(y, y') && |x| > MIN_THREAD_ELEM
    ensures SameCuts(CutRuns(x, y), CutRuns(x', y')) && SplitFine(CutRuns(x, y)) == SplitFine(CutRuns(x', y'))
  {
    hide CutShort, SplitFine, SameCuts;
    if |y| < |x| { CutKeys(y, x, y', x'); } else { CutKeys(x, y, x', y'); }
    FineKeys(CutRuns(x, y), CutRuns(x', y'));
  }

  lemma FineKeys(c: Cut, d: Cut)
    requires SameCuts(c, d)
    ensures SplitFine(c) == SplitFine(d)
  {
    if c.rx != [] { assert Le(c.pivot, c.rx[|c.rx| - 1]) == Le(d.pivot, d.rx[|d.rx| - 1]); }
  }

  lemma SplitsUnfold(x: seq<Elem>, y: seq<Elem>)
    requires |x| > MIN_THREAD_ELEM
    ensures var c := CutRuns(x, y); SplitsFine(x, y) <==> SplitFine(c) && SplitsFine(c.lx, c.ly) && SplitsFine(c.rx, c.ry)
  {
    hide CutRuns;
  }

  /** Whether the splits are fine depends on the keys only. */
  lemma {:induction false} SplitsKeys(x: seq<Elem>, y: seq<Elem>, x': seq<Elem>, y': seq<Elem>)
    requires SameKeys(x, x') && SameKeys(y, y')
    ensures SplitsFine(x, y) == SplitsFine(x', y')
    decreases |x| + |y|
  {
    if |x| > MIN_THREAD_ELEM {
      hide CutRuns, SplitsFine, SplitFine, SameKeys;
      var c, c' := CutRuns(x, y), CutRuns(x', y');
      SameLength(x, x');
      RunKeys(x, y, x', y');
      SplitsUnfold(x, y);
      SplitsUnfold(x', y');
      SplitsKeys(c.lx, c.ly, c'.lx, c'.ly);
      SplitsKeys(c.rx, c.ry, c'.rx, c'.ry);
    }
  }

  lemma SameLength(x: seq<Elem>, y: seq<Elem>)
    requires SameKeys(x, y)
    ensures |x| == |y|
  {
  }

  // ---------- exactly when the result is sorted ----------

  /** No split goes wrong in any merge, the halves being sorted by any correct sort. */
  predicate SortFine(s: seq<Elem>)
    decreases |s|
  {
    |s| <= MIN_THREAD_ELEM ||
    (var m := (|s| - 1) / 2 + 1;
     SortFine(s[..m]) && SortFine(s[m..]) && SplitsFine(MSort(s[..m]), MSort(s[m..])))
  }

  /** The parallel sort sorts exactly the inputs on which no split goes wrong. */
  lemma {:induction false} ParSortExactly(s: seq<Elem>)
    requires Comparable(s)
    ensures Ordered(ParSort(s)) <==> SortFine(s)
    decreases |s|
  {
    hide Comparable, Ordered, ParSort, SortFine;
    if |s| <= MIN_THREAD_ELEM {
      ShortExactly(s);
    } else {
      var m := (|s| - 1) / 2 + 1;
      ComparableParts(s, m);
      ParSortExactly(s[..m]);
      ParSortExactly(s[m..]);
      HalvesExactly(s, m);
    }
  }

  lemma HalvesExactly(s: seq<Elem>, m: nat)
    requires |s| > MIN_THREAD_ELEM && m == (|s| - 1) / 2 + 1 && Comparable(s)
    requires Ordered(ParSort(s[..m])) <==> SortFine(s[..m])
    requires Ordered(ParSort(s[m..])) <==> SortFine(s[m..])
    ensures Ordered(ParSort(s)) <==> SortFine(s)
  {
    hide Comparable, Ordered, ParSort, SortFine, ParMerge, SplitsFine, MSort;
    ParSortUnfold(s);
    SortFineUnfold(s);
    ComparableSorted(s, m);
    ComparableParts(s, m);
    ParMergeExactly(ParSort(s[..m]), ParSort(s[m..]));
    if Ordered(ParSort(s[..m])) && Ordered(ParSort(s[m..])) {
      HalfKeys(s[..m]);
      HalfKeys(s[m..]);
      SplitsKeys(ParSort(s[..m]), ParSort(s[m..]), MSort(s[..m]), MSort(s[m..]));
    }
  }

  lemma HalfKeys(s: seq<Elem>)
    requires Comparable(s) && Ordered(ParSort(s))
    ensures SameKeys(ParSort(s), MSort(s))
  {
    hide ParSort, MSort;
    ParSortKeeps(s);
    MSortStable(s);
    SamePermutation(s, MSort(s));
    OrderedKeys(ParSort(s), MSort(s));
  }

  lemma ComparableSorted(s: seq<Elem>, m: nat)
    requires Comparable(s) && m <= |s|
    ensures Comparable(ParSort(s[..m]) + ParSort(s[m..]))
  {
    hide ParSort;
    ParSortKeeps(s[..m]);
    ParSortKeeps(s[m..]);
    ComparableHalves(s, m, ParSort(s[..m]), ParSort(s[m..]));
  }

  lemma ShortExactly(s: seq<Elem>)
    requires |s| <= MIN_THREAD_ELEM && Comparable(s)
    ensures Ordered(ParSort(s)) && SortFine(s)
  {
    hide ISort;
    ISortStable(s);
  }

  lemma SortFineUnfold(s: seq<Elem>)
    requires |s| > MIN_THREAD_ELEM
    ensures var m := (|s| - 1) / 2 + 1;
      SortFine(s) <==> SortFine(s[..m]) && SortFine(s[m..]) && SplitsFine(MSort(s[..m]), MSort(s[m..]))
  {
    hide MSort, SplitsFine;
  }

  lemma ComparableHalves(s: seq<Elem>, m: nat, x: seq<Elem>, y: seq<Elem>)
    requires Comparable(s) && m <= |s| && multiset(x) == multiset(s[..m]) && multiset(y) == multiset(s[m..])
    ensures Comparable(x + y)
  {
    assert s == s[..m] + s[m..];
    ComparableAgain(s, x + y);
  }

  /** Up to 32 elements there is no split at all. */
  lemma ShortIsSorted(s: seq<Elem>)
    requires Comparable(s) && |s| <= 2 * MIN_THREAD_ELEM
    ensures Ordered(ParSort(s)) && SortFine(s)
  {
    hide ParMerge, ISort, ParSort, MSort;
    ParSortExactly(s);
  }

  // ---------- inputs that are sorted already ----------

  ghost predicate Strict(s: seq<Elem>) {
    forall i, j :: 0 <= i < j < |s| ==> s[i].key < s[j].key
  }

  // Every key of x is smaller than every key of y, and all can be compared.
  ghost predicate Below(x: seq<Elem>, y: seq<Elem>) {
    forall i, j :: 0 <= i < |x| && 0 <= j < |y| ==> x[i].key < y[j].key && Int32(x[i].key - y[j].key) && Int32(y[j].key - x[i].key)
  }

  // A pivot that is not greater than any element splits in front.
  lemma {:induction false} SearchFirst(x: seq<Elem>, p: Elem, low: nat, high: nat)
    requires low <= high < |x| && forall i :: low <= i <= high ==> Int32(p.key - x[i].key) && p.key <= x[i].key
    ensures Search(x, p, low, high) == low
    decreases high - low
  {
    if low < high {
      var mid := low + (high - low) / 2;
      LeExactly(p, x[mid]);
      SearchFirst(x, p, low, mid);
    }
  }

  // The pivot comes from a run that lies wholly above the other: the last element of that one is lost.
  lemma AboveFails(a: seq<Elem>, b: seq<Elem>)
    requires a != [] && b != [] && Below(a, b)
    ensures !SplitFine(CutShort(a, b))
  {
    var c := CutShort(a, b);
    assert c.rx[|c.rx| - 1] == a[|a| - 1] && c.pivot == b[(|b| - 1) / 2];
    LeExactly(c.pivot, a[|a| - 1]);
  }

  // The pivot comes from the lower run: the split is fine, and the upper run stays whole.
  lemma BelowCuts(a: seq<Elem>, b: seq<Elem>)
    requires a != [] && b != [] && Below(b, a)
    ensures var c := CutShort(a, b);
      SplitFine(c) && c.lx == [] && c.rx == a && c.ry == b[(|b| - 1) / 2 + 1..]
  {
    var c := CutShort(a, b);
    SearchFirst(a, b[(|b| - 1) / 2], 0, |a| - 1);
    LeExactly(c.pivot, a[|a| - 1]);
  }

  /** A run below another of about the same length, both longer than MIN_THREAD_ELEM: some split fails. */
  lemma RunsFail(x: seq<Elem>, y: seq<Elem>)
    requires Below(x, y) && |y| > MIN_THREAD_ELEM && (|x| == |y| || |x| == |y| + 1)
    ensures !SplitsFine(x, y)
  {
    SplitsUnfold(x, y);
    hide SplitsFine;
    if |x| == |y| {
      hide CutShort, SplitFine;
      AboveFails(x, y);
    } else {
      SecondCut(x, y);
    }
  }

  // The first pivot comes from x and leaves y whole; the second comes from y.
  lemma SecondCut(x: seq<Elem>, y: seq<Elem>)
    requires Below(x, y) && |x| == |y| + 1 && |y| > MIN_THREAD_ELEM
    ensures var c := CutRuns(x, y); !SplitsFine(c.rx, c.ry)
  {
    hide CutShort, SplitFine, SplitsFine;
    BelowCuts(y, x);
    var ry := x[(|x| - 1) / 2 + 1..];
    assert Below(ry, y) && ry != [];
    hide Below;
    SplitsUnfold(y, ry);
    AboveFails(ry, y);
  }

  lemma Run33(x: seq<Elem>, y: seq<Elem>)
    requires Below(x, y) && |x| == MIN_THREAD_ELEM + 1 && |y| == MIN_THREAD_ELEM
    ensures SplitsFine(x, y)
  {
    hide CutShort, SplitFine;
    BelowCuts(y, x);
    SplitsUnfold(x, y);
  }

  lemma SortedHalves(s: seq<Elem>, m: nat)
    requires Comparable(s) && Strict(s) && m <= |s|
    ensures MSort(s[..m]) == s[..m] && MSort(s[m..]) == s[m..] && Below(s[..m], s[m..])
  {
    hide MSort, Filter;
    ComparableParts(s, m);
    MSortStable(s[..m]);
    MSortStable(s[m..]);
    SortsAgree(s[..m], MSort(s[..m]), s[..m]);
    SortsAgree(s[m..], MSort(s[m..]), s[m..]);
  }

  /** An input that is strictly sorted already comes out sorted if and only if it has at most 33 elements. */
  lemma SortedInputExactly(s: seq<Elem>)
    requires Comparable(s) && Strict(s)
    ensures Ordered(ParSort(s)) <==> |s| <= 2 * MIN_THREAD_ELEM + 1
  {
    hide ParSort, MSort, SplitsFine, SortFine, Ordered;
    ParSortExactly(s);
    if |s| <= 2 * MIN_THREAD_ELEM {
      ShortIsSorted(s);
    } else {
      var m := (|s| - 1) / 2 + 1;
      SortFineUnfold(s);
      SortedHalves(s, m);
      ComparableParts(s, m);
      if |s| == 2 * MIN_THREAD_ELEM + 1 {
        Run33(s[..m], s[m..]);
        ShortIsSorted(s[..m]);
        ShortIsSorted(s[m..]);
      } else {
        RunsFail(s[..m], s[m..]);
      }
    }
  }

  // ---------- schedules of the copy ----------

  // w interleaves the stores of any number of threads.
  ghost predicate InterleavesAll(us: seq<seq<Store>>, w: seq<Store>)
    decreases |w|
  {
    if w == [] then forall k :: 0 <= k < |us| ==> us[k] == [] else
      exists k :: 0 <= k < |us| && us[k] != [] && us[k][0] == w[0] && InterleavesAll(us[k := us[k][1..]], w[1..])
  }

  function Concat(us: seq<seq<Store>>): seq<Store> {
    if us == [] then [] else us[0] + Concat(us[1..])
  }

  lemma {:induction false} TakeFirst(us: seq<seq<Store>>, k: nat)
    requires k < |us| && us[k] != []
    ensures multiset(Concat(us)) == multiset{us[k][0]} + multiset(Concat(us[k := us[k][1..]]))
  {
    var vs := us[k := us[k][1..]];
    if k == 0 {
      assert us[0] == [us[0][0]] + us[0][1..] && vs[1..] == us[1..];
    } else {
      TakeFirst(us[1..], k - 1);
      assert vs[1..] == us[1..][k - 1 := us[k][1..]] && vs[0] == us[0];
    }
  }

  lemma {:induction false} NothingLeft(us: seq<seq<Store>>)
    requires forall k :: 0 <= k < |us| ==> us[k] == []
    ensures Concat(us) == []
  {
    if us != [] { NothingLeft(us[1..]); }
  }

  lemma FirstTaken(us: seq<seq<Store>>, w: seq<Store>) returns (k: nat)
    requires InterleavesAll(us, w)
    ensures w == [] ==> forall i :: 0 <= i < |us| ==> us[i] == []
    ensures w != [] ==> k < |us| && us[k] != [] && us[k][0] == w[0] && InterleavesAll(us[k := us[k][1..]], w[1..])
  {
    k := 0;
    if w != [] {
      k :| 0 <= k < |us| && us[k] != [] && us[k][0] == w[0] && InterleavesAll(us[k := us[k][1..]], w[1..]);
    }
  }

  lemma {:induction false} InterleavesAllKeeps(us: seq<seq<Store>>, w: seq<Store>)
    requires InterleavesAll(us, w)
    ensures multiset(w) == multiset(Concat(us))
    decreases |w|
  {
    hide InterleavesAll, Concat;
    var k := FirstTaken(us, w);
    if w == [] {
      NothingLeft(us);
    } else {
      InterleavesAllKeeps(us[k := us[k][1..]], w[1..]);
      TakeFirst(us, k);
      assert multiset(w) == multiset{w[0]} + multiset(w[1..]) by { assert w == [w[0]] + w[1..]; }
    }
  }

  // One thread after the other is one of the interleavings.
  lemma {:induction false} InOrder(us: seq<seq<Store>>)
    ensures InterleavesAll(us, Concat(us))
    decreases |Concat(us)|
  {
    if Concat(us) == [] {
      AllEmpty(us);
    } else {
      var k := FirstBusy(us);
      var vs := us[k := us[k][1..]];
      InOrder(vs);
      assert us[k] != [] && us[k][0] == Concat(us)[0] && InterleavesAll(us[k := us[k][1..]], Concat(us)[1..]);
    }
  }

  lemma {:induction false} AllEmpty(us: seq<seq<Store>>)
    requires Concat(us) == []
    ensures forall k :: 0 <= k < |us| ==> us[k] == []
  {
    if us != [] {
      AllEmpty(us[1..]);
      assert forall k :: 0 < k < |us| ==> us[k] == us[1..][k - 1];
    }
  }

  lemma {:induction false} FirstBusy(us: seq<seq<Store>>) returns (k: nat)
    requires Concat(us) != []
    ensures k < |us| && us[k] != [] && us[k][0] == Concat(us)[0] && Concat(us[k := us[k][1..]]) == Concat(us)[1..]
    decreases |us|
  {
    if us[0] != [] {
      k := 0;
      assert us[0 := us[0][1..]][1..] == us[1..];
    } else {
      var j := FirstBusy(us[1..]);
      k := j + 1;
      assert us[k] == us[1..][j] && us[k := us[k][1..]][1..] == us[1..][j := us[k][1..]];
    }
  }

  /** The stores of copy_arr_parallel from `off` on: n - 1 threads with a chunk each, and the remainder. */
  function Chunks(t: seq<Elem>, off: nat, chunk: nat, n: nat): (us: seq<seq<Store>>)
    requires 0 < n && off + (n - 1) * chunk <= |t|
    decreases n
  {
    if n == 1 then [Stores(off, t[off..])]
    else
      ChunkFits(|t|, off, chunk, n);
      [Stores(off, t[off..off + chunk])] + Chunks(t, off + chunk, chunk, n - 1)
  }

  lemma ChunkFits(len: nat, off: nat, chunk: nat, n: nat)
    requires 1 < n && off + (n - 1) * chunk <= len
    ensures off + chunk <= len && off + chunk + (n - 2) * chunk <= len
  {
    assert (n - 1) * chunk == chunk + (n - 2) * chunk;
    assert (n - 2) * chunk >= 0;
  }

  /** Every thread has its own chunk: the j-th one the j-th stretch of `chunk` elements, the caller the rest. */
  lemma {:induction false} ChunkOf(t: seq<Elem>, off: nat, chunk: nat, n: nat, j: nat)
    requires 0 < n && off + (n - 1) * chunk <= |t| && j < n
    ensures |Chunks(t, off, chunk, n)| == n && off + j * chunk <= |t| && (j < n - 1 ==> off + j * chunk + chunk <= |t|)
    ensures Chunks(t, off, chunk, n)[j]
         == Stores(off + j * chunk, if j == n - 1 then t[off + j * chunk..] else t[off + j * chunk..off + j * chunk + chunk])
    decreases n
  {
    hide Stores;
    if n > 1 {
      ChunkFits(|t|, off, chunk, n);
      if j > 0 {
        ChunkOf(t, off + chunk, chunk, n - 1, j - 1);
        assert off + chunk + (j - 1) * chunk == off + j * chunk;
      } else {
        ChunkOf(t, off + chunk, chunk, n - 1, 0);
      }
    }
  }

  lemma {:induction false} ChunksStore(t: seq<Elem>, off: nat, chunk: nat, n: nat)
    requires 0 < n && off + (n - 1) * chunk <= |t|
    ensures Concat(Chunks(t, off, chunk, n)) == Stores(off, t[off..])
    decreases n
  {
    if n == 1 {
      OneChunk(Stores(off, t[off..]));
    } else {
      ChunkFits(|t|, off, chunk, n);
      ChunksStore(t, off + chunk, chunk, n - 1);
      var a, b := Stores(off, t[off..off + chunk]), Chunks(t, off + chunk, chunk, n - 1);
      assert ([a] + b)[1..] == b;
      assert t[off..] == t[off..off + chunk] + t[off + chunk..];
    }
  }

  lemma OneChunk(u: seq<Store>)
    ensures Concat([u]) == u
  {
    assert [u][1..] == [];
  }

  // w is what copy_arr_parallel may store when it copies t to the front of an array, with nproc threads.
  ghost predicate CopySchedule(t: seq<Elem>, nproc: nat, w: seq<Store>) {
    nproc > 0 && AllChunksFit(|t|, nproc) && InterleavesAll(Chunks(t, 0, |t| / nproc, nproc), w)
  }

  predicate AllChunksFit(len: nat, nproc: nat)
    requires nproc > 0
  {
    (nproc - 1) * (len / nproc) <= len
  }

  lemma ChunksFit(len: nat, nproc: nat)
    requires nproc > 0
    ensures AllChunksFit(len, nproc)
  {
    NextChunk(len, nproc, nproc - 1);
  }

  /** Under every interleaving of the copying threads each cell is stored once, and the array is copied. */
  lemma EveryCopyCopies(t: seq<Elem>, nproc: nat, w: seq<Store>, b: seq<Elem>)
    requires CopySchedule(t, nproc, w) && |t| <= |b|
    ensures multiset(w) == multiset(Stores(0, t))
    ensures (forall e :: e in w ==> e.at < |b|) && Wrote(b, 0, t, Perform(b, w))
  {
    hide Chunks, Wrote;
    InterleavesAllKeeps(Chunks(t, 0, |t| / nproc, nproc), w);
    ChunksStore(t, 0, |t| / nproc, nproc);
    assert t[0..] == t;
    AnyOrder(b, 0, t, w);
  }

  // ---------- schedules of the whole sort ----------

  /** One execution of merge_sort_threaded on a range, with all stores into the range in time order and
      addresses counted from its start: the stores of an insertion sort, or the two threads' executions,
      an interleaving of their stores, the stores of the merge into a buffer that held `buffer`, and
      those of the copy back. */
  datatype Execution =
    | Short(stores: seq<Store>)
    | Forked(left: Execution, right: Execution, both: seq<Store>, buffer: seq<Elem>, merge: seq<Store>, copy: seq<Store>)

  function StoresOf(x: Execution): seq<Store> {
    if x.Short? then x.stores else x.both + x.copy
  }

  function Shift(w: seq<Store>, k: nat): (r: seq<Store>)
    ensures |r| == |w|
  {
    seq(|w|, i requires 0 <= i < |w| => Store(w[i].at + k, w[i].value))
  }

  predicate Within(n: nat, w: seq<Store>) {
    forall e :: e in w ==> e.at < n
  }

  // x is a possible execution on a range that holds s, with nproc processors. Each thread reads and
  // stores in its own range only; what it merges and copies is what memory holds at that time.
  ghost predicate Executes(s: seq<Elem>, nproc: nat, x: Execution)
    decreases x
  {
    match x
    case Short(w) => |s| <= MIN_THREAD_ELEM && Within(|s|, w) && Perform(s, w) == ISort(s)
    case Forked(left, right, both, buffer, merge, copy) =>
      && |s| > MIN_THREAD_ELEM && Joins(s, nproc, x)
      && Executes(s[..(|s| - 1) / 2 + 1], nproc, left) && Executes(s[(|s| - 1) / 2 + 1..], nproc, right)
  }

  ghost predicate Joins(s: seq<Elem>, nproc: nat, x: Execution)
    requires x.Forked? && |s| > MIN_THREAD_ELEM
  {
    var m := (|s| - 1) / 2 + 1;
    && Interleaves(StoresOf(x.left), Shift(StoresOf(x.right), m), x.both) && Within(|s|, x.both)
    && var s1 := Perform(s, x.both);
    && |x.buffer| == |s| && Schedule(s1[..m], s1[m..], 0, x.merge) && Within(|s|, x.merge)
    && CopySchedule(Perform(x.buffer, x.merge), nproc, x.copy)
  }

  lemma {:induction false} PerformConcat(b: seq<Elem>, u: seq<Store>, v: seq<Store>)
    requires Within(|b|, u) && Within(|b|, v)
    ensures Within(|b|, u + v) && Perform(b, u + v) == Perform(Perform(b, u), v)
    decreases |u|
  {
    if u == [] {
      assert u + v == v;
    } else {
      assert u == [u[0]] + u[1..] && (u + v)[1..] == u[1..] + v;
      PerformConcat(b[u[0].at := u[0].value], u[1..], v);
    }
  }

  /** Threads that store into separate ranges do not notice each other, however they interleave. */
  lemma {:induction false} HalvesApart(s: seq<Elem>, m: nat, u: seq<Store>, v: seq<Store>, w: seq<Store>)
    requires m <= |s| && Within(m, u) && Within(|s| - m, v) && Interleaves(u, Shift(v, m), w)
    ensures Within(|s|, w) && Perform(s, w) == Perform(s[..m], u) + Perform(s[m..], v)
    decreases |w|
  {
    if w != [] {
      assert w == [w[0]] + w[1..];
      var s' := s[w[0].at := w[0].value];
      if u != [] && u[0] == w[0] && Interleaves(u[1..], Shift(v, m), w[1..]) {
        assert s'[..m] == s[..m][u[0].at := u[0].value] && s'[m..] == s[m..];
        HalvesApart(s', m, u[1..], v, w[1..]);
      } else {
        assert Shift(v, m)[1..] == Shift(v[1..], m);
        assert s'[..m] == s[..m] && s'[m..] == s[m..][v[0].at := v[0].value];
        HalvesApart(s', m, u, v[1..], w[1..]);
      }
    }
  }

  lemma {:induction false} OneThenOther(u: seq<Store>, v: seq<Store>)
    ensures Interleaves(u, v, u + v)
    decreases |u| + |v|
  {
    if u != [] {
      OneThenOther(u[1..], v);
      assert (u + v)[1..] == u[1..] + v;
    } else if v != [] {
      OneThenOther(u, v[1..]);
      assert (u + v)[1..] == u + v[1..];
    }
  }

  // A merge can be scheduled.
  lemma {:induction false} SomeSchedule(x: seq<Elem>, y: seq<Elem>, start: nat) returns (w: seq<Store>)
    ensures Schedule(x, y, start, w)
    decreases |x| + |y|
  {
    hide CutRuns, Schedule, Stores, SMerge;
    if |x| <= MIN_THREAD_ELEM {
      w := Stores(start, SMerge(x, y));
      ShortSchedule(x, y, start);
    } else {
      var c := CutRuns(x, y);
      var n := |c.lx| + |c.ly|;
      var u := SomeSchedule(c.lx, c.ly, start);
      var v := SomeSchedule(c.rx, c.ry, start + n + 1);
      w := [Store(start + n, c.pivot)] + (u + v);
      ForkSchedule(x, y, start, u, v, w);
    }
  }

  lemma ShortSchedule(x: seq<Elem>, y: seq<Elem>, start: nat)
    requires |x| <= MIN_THREAD_ELEM
    ensures Schedule(x, y, start, Stores(start, SMerge(x, y)))
  {
    hide CutRuns, Stores, SMerge, Interleaves;
  }

  lemma ForkSchedule(x: seq<Elem>, y: seq<Elem>, start: nat, u: seq<Store>, v: seq<Store>, w: seq<Store>)
    requires |x| > MIN_THREAD_ELEM
    requires var c := CutRuns(x, y);
      && Schedule(c.lx, c.ly, start, u) && Schedule(c.rx, c.ry, start + |c.lx| + |c.ly| + 1, v)
      && w == [Store(start + |c.lx| + |c.ly|, c.pivot)] + (u + v)
    ensures Schedule(x, y, start, w)
  {
    hide CutRuns, Interleaves;
    OneThenOther(u, v);
    assert w[1..] == u + v;
  }

  /** Every input has an execution. */
  lemma {:induction false} SomeExecution(s: seq<Elem>, nproc: nat) returns (x: Execution)
    requires nproc > 0
    ensures Executes(s, nproc, x)
    decreases |s|
  {
    if |s| <= MIN_THREAD_ELEM {
      var t := ISort(s);
      AnyOrder(s, 0, t, Stores(0, t));
      x := Short(Stores(0, t));
      var r := Perform(s, Stores(0, t));
      assert r == r[0..0 + |t|] == t;
    } else {
      var m := (|s| - 1) / 2 + 1;
      var left := SomeExecution(s[..m], nproc);
      var right := SomeExecution(s[m..], nproc);
      EveryScheduleSorts(s[..m], nproc, left);
      EveryScheduleSorts(s[m..], nproc, right);
      x := JoinExecutions(s, nproc, m, left, right);
    }
  }

  lemma JoinExecutions(s: seq<Elem>, nproc: nat, m: nat, left: Execution, right: Execution) returns (x: Execution)
    requires nproc > 0 && |s| > MIN_THREAD_ELEM && m == (|s| - 1) / 2 + 1
    requires Executes(s[..m], nproc, left) && Executes(s[m..], nproc, right)
    requires Within(m, StoresOf(left)) && Within(|s| - m, StoresOf(right))
    ensures Executes(s, nproc, x)
  {
    hide Schedule, CopySchedule, ParMerge, Interleaves, Perform, Shift, Executes;
    var u, v := StoresOf(left), Shift(StoresOf(right), m);
    OneThenOther(u, v);
    HalvesApart(s, m, StoresOf(left), StoresOf(right), u + v);
    var s1 := Perform(s, u + v);
    var merge := SomeSchedule(s1[..m], s1[m..], 0);
    EveryScheduleMerges(s1[..m], s1[m..], 0, merge, s);
    var copy := SomeCopy(Perform(s, merge), nproc);
    x := Forked(left, right, u + v, s, merge, copy);
    assert Joins(s, nproc, x);
    ForkExecutes(s, nproc, x);
  }

  lemma ForkExecutes(s: seq<Elem>, nproc: nat, x: Execution)
    requires x.Forked? && |s| > MIN_THREAD_ELEM && Joins(s, nproc, x)
    requires var m := (|s| - 1) / 2 + 1; Executes(s[..m], nproc, x.left) && Executes(s[m..], nproc, x.right)
    ensures Executes(s, nproc, x)
  {
    hide Joins;
  }

  lemma SomeCopy(t: seq<Elem>, nproc: nat) returns (w: seq<Store>)
    requires nproc > 0
    ensures CopySchedule(t, nproc, w)
  {
    hide Chunks;
    ChunksFit(|t|, nproc);
    InOrder(Chunks(t, 0, |t| / nproc, nproc));
    w := Concat(Chunks(t, 0, |t| / nproc, nproc));
  }

  /** Every execution stores into its range only and leaves the same result there, whatever the schedule. */
  lemma {:induction false} EveryScheduleSorts(s: seq<Elem>, nproc: nat, x: Execution)
    requires Executes(s, nproc, x)
    ensures Within(|s|, StoresOf(x)) && Perform(s, StoresOf(x)) == ParSort(s)
    decreases x
  {
    if x.Forked? {
      var m := (|s| - 1) / 2 + 1;
      EveryScheduleSorts(s[..m], nproc, x.left);
      EveryScheduleSorts(s[m..], nproc, x.right);
      HalvesApart(s, m, StoresOf(x.left), StoresOf(x.right), x.both);
      ForkedSorts(s, nproc, m, x);
    }
  }

  lemma ForkedSorts(s: seq<Elem>, nproc: nat, m: nat, x: Execution)
    requires x.Forked? && |s| > MIN_THREAD_ELEM && m == (|s| - 1) / 2 + 1 && Within(|s|, x.both)
    requires Perform(s, x.both) == ParSort(s[..m]) + ParSort(s[m..]) && |x.buffer| == |s|
    requires Schedule(ParSort(s[..m]), ParSort(s[m..]), 0, x.merge) && Within(|s|, x.merge)
    requires CopySchedule(Perform(x.buffer, x.merge), nproc, x.copy)
    ensures Within(|s|, StoresOf(x)) && Perform(s, StoresOf(x)) == ParSort(s)
  {
    hide ParSort, ParMerge, Schedule, CopySchedule, Perform;
    var t := Perform(x.buffer, x.merge);
    EveryScheduleMerges(ParSort(s[..m]), ParSort(s[m..]), 0, x.merge, x.buffer);
    ParSortUnfold(s);
    assert t == t[0..0 + |t|] == ParSort(s);
    var s1 := Perform(s, x.both);
    EveryCopyCopies(t, nproc, x.copy, s1);
    PerformConcat(s, x.both, x.copy);
    var r := Perform(s1, x.copy);
    assert r == r[0..0 + |t|] == t;
  }

  // ---------- the code ----------

  /** copy_arr_parallel of src into dst from l on: one chunk for each of the other threads, and the
      remainder for the caller. */
  method CopyArrParallel(dst: array<Elem>, l: nat, src: seq<Elem>, nproc: nat)
    requires nproc > 0 && l + |src| <= dst.Length
    modifies dst
    ensures Wrote(old(dst[..]), l, src, dst[..])
  {
    hide Wrote;
    ghost var s := dst[..];
    var chunk := |src| / nproc;
    var i := 0;
    WroteNothing(s, l);
    assert src[..0] == [];
    while i < nproc - 1
      invariant 0 <= i <= nproc - 1 && 0 <= i * chunk <= |src| && Wrote(s, l, src[..i * chunk], dst[..])
    {
      NextChunk(|src|, nproc, i);
      CopyChunk(dst, l, src, i * chunk, i * chunk + chunk, s);
      i := i + 1;
    }
    CopyChunk(dst, l, src, i * chunk, |src|, s);
    assert src[..|src|] == src;
  }

  // copy_arr_serial, as one thread calls it, after everything before off has been copied.
  method CopyChunk(dst: array<Elem>, l: nat, src: seq<Elem>, off: nat, end: nat, ghost s: seq<Elem>)
    requires off <= end <= |src| && l + |src| <= dst.Length && Wrote(s, l, src[..off], dst[..])
    modifies dst
    ensures Wrote(s, l, src[..end], dst[..])
  {
    hide Wrote;
    ghost var a := dst[..];
    CopyRest(src[off..end], dst, l + off);
    WroteJoin(s, l, src[..off], a, src[off..end], dst[..]);
    assert src[..off] + src[off..end] == src[..end];
  }

  lemma WroteNothing(s: seq<Elem>, l: nat)
    requires l <= |s|
    ensures Wrote(s, l, [], s)
  {
  }

  lemma NextChunk(n: nat, nproc: nat, i: nat)
    requires i < nproc
    ensures (i + 1) * (n / nproc) == i * (n / nproc) + n / nproc <= n
  {
    var chunk, left := n / nproc, nproc - (i + 1);
    assert nproc * chunk == (i + 1) * chunk + left * chunk;
    assert left * chunk >= 0;
  }

  /** merge_parallel of arr[l..m] and arr[m + 1..r]. */
  method MergeParallel(arr: array<Elem>, l: nat, m: int, r: int, nproc: nat)
    requires l - 1 <= m <= r < arr.Length && nproc > 0
    modifies arr
    ensures Wrote(old(arr[..]), l, ParMerge(old(arr[..])[l..m + 1], old(arr[..])[m + 1..r + 1]), arr[..])
  {
    hide ParMerge;
    var B := new Elem[r - l + 1](_ => Elem(0, 0));
    MergeParallelAux(arr, l, m, m + 1, r, B, 0);
    ghost var t := ParMerge(arr[..][l..m + 1], arr[..][m + 1..r + 1]);
    assert B[..] == B[..][0..0 + |t|] == t;
    CopyArrParallel(arr, l, B[..], nproc);
  }

  /** merge_sort_threaded of arr[l..r], the two threads one after the other. */
  method MergeSortThreaded(arr: array<Elem>, l: nat, r: int, nproc: nat)
    requires l - 1 <= r < arr.Length && nproc > 0
    modifies arr
    ensures Wrote(old(arr[..]), l, ParSort(old(arr[..])[l..r + 1]), arr[..])
    decreases r - l + 1
  {
    hide ParSort, ISort, ParMerge, Wrote;
    ghost var s := arr[..];
    if r - l + 1 <= MIN_THREAD_ELEM {
      ParSortShort(s[l..r + 1]);
      InsertionSort(arr, l, r - l + 1);
    } else {
      var m := l + (r - l) / 2;
      MergeSortThreaded(arr, l, m, nproc);
      ghost var a := arr[..];
      MergeSortThreaded(arr, m + 1, r, nproc);
      ghost var b := arr[..];
      MergeParallel(arr, l, m, r, nproc);
      ParHalvesJoin(s, l, m + 1, r + 1, a, b, arr[..]);
    }
  }

  lemma ParSortShort(s: seq<Elem>)
    requires |s| <= MIN_THREAD_ELEM
    ensures ParSort(s) == ISort(s)
  {
    hide ISort;
  }

  lemma ParHalvesJoin(s: seq<Elem>, l: nat, m: nat, r: nat, a: seq<Elem>, b: seq<Elem>, c: seq<Elem>)
    requires l < m < r <= |s| == |a| == |b| && m - l == (r - l - 1) / 2 + 1 && r - l > MIN_THREAD_ELEM
    requires Wrote(s, l, ParSort(s[l..m]), a) && Wrote(a, m, ParSort(a[m..r]), b)
    requires Wrote(b, l, ParMerge(b[l..m], b[m..r]), c)
    ensures Wrote(s, l, ParSort(s[l..r]), c)
  {
    hide ParSort, ParMerge;
    var w := s[l..r];
    ParSortUnfold(w);
    assert w[..m - l] == s[l..m] && w[m - l..] == s[m..r];
    PartsJoin(s, l, m, r, ParSort(s[l..m]), a, ParSort(a[m..r]), b, ParMerge(b[l..m], b[m..r]), c);
  }
}
