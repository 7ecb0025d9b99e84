/** The serial sorts of mergesort.c. Elements are records compared by a 32-bit key. */
module MergeSort {
  datatype Elem = Elem(key: int, rest: int)

  const HALF: int := 0x8000_0000

  predicate Int32(x: int) {
    -HALF <= x < HALF
  }

  // compare_elem: a subtraction of two ints, which wraps around.
  function Compare(a: Elem, b: Elem): int {
    (a.key - b.key + HALF) % 0x1_0000_0000 - HALF
  }

  predicate Le(a: Elem, b: Elem) {
    Compare(a, b) <= 0
  }

  /** The sign of the comparison is right exactly when the difference of the keys is an int. */
  lemma CompareExactly(a: Elem, b: Elem)
    requires Int32(a.key) && Int32(b.key)
    ensures Compare(a, b) == a.key - b.key <==> Int32(a.key - b.key)
    ensures (Compare(a, b) <= 0 <==> a.key <= b.key) <==> Int32(a.key - b.key)
  {
  }

  // All key differences are ints.
  ghost predicate Comparable(s: seq<Elem>) {
    forall i, j :: 0 <= i < |s| && 0 <= j < |s| ==> Int32(s[i].key - s[j].key)
  }

  // ---------- stable sorting ----------

  ghost predicate Ordered(s: seq<Elem>) {
    forall i, j :: 0 <= i < j < |s| ==> s[i].key <= s[j].key
  }

  /** The records with key k, in order. */
  function Filter(s: seq<Elem>, k: int): seq<Elem> {
    if s == [] then []
    else if s[0].key == k then [s[0]] + Filter(s[1..], k)
    else Filter(s[1..], k)
  }

  ghost predicate SameRecords(s: seq<Elem>, t: seq<Elem>) {
    forall k :: Filter(s, k) == Filter(t, k)
  }

  /** t is s sorted by key, records with equal keys in their original order. */
  ghost predicate StablySorted(s: seq<Elem>, t: seq<Elem>) {
    Ordered(t) && SameRecords(s, t)
  }

  lemma {:induction false} FilterConcat(s: seq<Elem>, t: seq<Elem>, k: int)
    ensures Filter(s + t, k) == Filter(s, k) + Filter(t, k)
  {
    if s == [] {
      assert s + t == t;
    } else {
      FilterConcat(s[1..], t, k);
      assert (s + t)[1..] == s[1..] + t;
    }
  }

  lemma {:induction false} FilterMember(s: seq<Elem>, i: nat)
    requires i < |s|
    ensures Filter(s, s[i].key) != []
  {
    if i > 0 { FilterMember(s[1..], i - 1); }
  }

  lemma {:induction false} FilterIn(s: seq<Elem>, k: int, e: Elem)
    requires e in Filter(s, k)
    ensures e in s && e.key == k
  {
    if s[0].key != k || e != s[0] { FilterIn(s[1..], k, e); }
  }

  // An ordered sequence starts with the smallest key, so the first record of that key is its head.
  lemma FilterHead(s: seq<Elem>, t: seq<Elem>)
    requires s != [] && StablySorted(s, t) && Ordered(s)
    ensures t != [] && t[0] == s[0]
  {
    FilterMember(s, 0);
    var e := Filter(t, s[0].key)[0];
    FilterIn(t, s[0].key, e);
    FilterMember(t, 0);
    var f := Filter(s, t[0].key)[0];
    FilterIn(s, t[0].key, f);
    assert t[0].key <= e.key && s[0].key <= f.key;
    assert Filter(s, s[0].key)[0] == s[0] && Filter(t, t[0].key)[0] == t[0];
  }

  lemma FilterTail(s: seq<Elem>, k: int)
    requires s != []
    ensures Filter(s[1..], k) == if s[0].key == k then Filter(s, k)[1..] else Filter(s, k)
  {
  }

  /** There is only one stable sorting of a sequence. */
  lemma {:induction false} SortedUnique(s: seq<Elem>, t: seq<Elem>)
    requires Ordered(s) && StablySorted(s, t)
    ensures s == t
    decreases |s|
  {
    if s == [] {
      if t != [] { FilterMember(t, 0); }
    } else {
      FilterHead(s, t);
      forall k ensures Filter(s[1..], k) == Filter(t[1..], k) {
        assert Filter(s, k) == Filter(t, k);
        FilterTail(s, k);
        FilterTail(t, k);
      }
      SortedUnique(s[1..], t[1..]);
      assert s == [s[0]] + s[1..] && t == [t[0]] + t[1..];
    }
  }

  /** Two stable sorts leave the same array, record for record. */
  lemma SortsAgree(s: seq<Elem>, t: seq<Elem>, u: seq<Elem>)
    requires StablySorted(s, t) && StablySorted(s, u)
    ensures t == u
  {
    forall k ensures Filter(t, k) == Filter(u, k) {
      assert Filter(s, k) == Filter(t, k) && Filter(s, k) == Filter(u, k);
    }
    SortedUnique(t, u);
  }

  lemma {:induction false} FilterCount(s: seq<Elem>, e: Elem)
    ensures multiset(s)[e] == multiset(Filter(s, e.key))[e]
  {
    if s != [] {
      FilterCount(s[1..], e);
      assert s == [s[0]] + s[1..];
    }
  }

  lemma SamePermutation(s: seq<Elem>, t: seq<Elem>)
    requires SameRecords(s, t)
    ensures multiset(s) == multiset(t) && |s| == |t|
  {
    forall e ensures multiset(s)[e] == multiset(t)[e] {
      FilterCount(s, e);
      FilterCount(t, e);
      assert Filter(s, e.key) == Filter(t, e.key);
    }
    assert |multiset(s)| == |s| && |multiset(t)| == |t|;
  }

  // ---------- merging ----------

  /** What the merge loops compute: the left element goes first unless it compares greater. */
  function SMerge(x: seq<Elem>, y: seq<Elem>): (m: seq<Elem>)
    ensures |m| == |x| + |y|
    decreases |x| + |y|
  {
    if x == [] then y else if y == [] then x
    else if Le(x[0], y[0]) then [x[0]] + SMerge(x[1..], y) else [y[0]] + SMerge(x, y[1..])
  }

  lemma {:induction false} SMergeFilter(x: seq<Elem>, y: seq<Elem>, k: int)
    requires Ordered(x) && Ordered(y) && Comparable(x + y)
    ensures Filter(SMerge(x, y), k) == Filter(x, k) + Filter(y, k)
    decreases |x| + |y|
  {
    if x != [] && y != [] {
      hide Filter;
      CrossComparable(x, y);
      SubComparable(x, y);
      if Le(x[0], y[0]) {
        SMergeFilter(x[1..], y, k);
        FilterCons(x, k);
        FilterCons([x[0]] + SMerge(x[1..], y), k);
      } else {
        SMergeFilter(x, y[1..], k);
        FilterCons(y, k);
        FilterCons([y[0]] + SMerge(x, y[1..]), k);
        if y[0].key == k { NoneOf(x, k); }
      }
    } else {
      assert Filter([], k) == [];
    }
  }

  lemma FilterCons(s: seq<Elem>, k: int)
    requires s != []
    ensures Filter(s, k) == if s[0].key == k then [s[0]] + Filter(s[1..], k) else Filter(s[1..], k)
  {
  }

  lemma CrossComparable(x: seq<Elem>, y: seq<Elem>)
    requires x != [] && y != [] && Comparable(x + y)
    ensures Le(x[0], y[0]) <==> x[0].key <= y[0].key
  {
    assert (x + y)[0] == x[0] && (x + y)[|x|] == y[0];
  }

  lemma SubComparable(x: seq<Elem>, y: seq<Elem>)
    requires x != [] && y != [] && Comparable(x + y)
    ensures Comparable(x[1..] + y) && Comparable(x + y[1..])
  {
    assert x[1..] + y == (x + y)[1..];
    var u, v := x + y, x + y[1..];
    forall i, j | 0 <= i < |v| && 0 <= j < |v| ensures Int32(v[i].key - v[j].key) {
      var i' := if i < |x| then i else i + 1;
      var j' := if j < |x| then j else j + 1;
      assert v[i] == u[i'] && v[j] == u[j'];
    }
  }

  lemma {:induction false} NoneOf(x: seq<Elem>, k: int)
    requires forall i :: 0 <= i < |x| ==> x[i].key != k
    ensures Filter(x, k) == []
  {
    if x != [] { NoneOf(x[1..], k); }
  }

  lemma {:induction false} SMergeOrdered(x: seq<Elem>, y: seq<Elem>)
    requires Ordered(x) && Ordered(y) && Comparable(x + y)
    ensures Ordered(SMerge(x, y))
    ensures forall e :: e in SMerge(x, y) <==> e in x || e in y
    decreases |x| + |y|
  {
    if x != [] && y != [] {
      CrossComparable(x, y);
      SubComparable(x, y);
      if Le(x[0], y[0]) {
        SMergeOrdered(x[1..], y);
        HeadFirst(x[0], SMerge(x[1..], y), x[1..], y);
      } else {
        SMergeOrdered(x, y[1..]);
        HeadFirst(y[0], SMerge(x, y[1..]), x, y[1..]);
      }
      assert x == [x[0]] + x[1..] && y == [y[0]] + y[1..];
    }
  }

  lemma HeadFirst(h: Elem, m: seq<Elem>, x: seq<Elem>, y: seq<Elem>)
    requires Ordered(m) && (forall e :: e in m <==> e in x || e in y)
    requires (forall i :: 0 <= i < |x| ==> h.key <= x[i].key) && (forall i :: 0 <= i < |y| ==> h.key <= y[i].key)
    ensures Ordered([h] + m)
  {
    forall i | 0 <= i < |m| ensures h.key <= m[i].key {
      assert m[i] in m;
    }
  }

  lemma SMergeStable(s: seq<Elem>, t: seq<Elem>, x: seq<Elem>, y: seq<Elem>)
    requires StablySorted(s, x) && StablySorted(t, y) && Comparable(x + y)
    ensures StablySorted(s + t, SMerge(x, y))
  {
    SMergeOrdered(x, y);
    forall k ensures Filter(s + t, k) == Filter(SMerge(x, y), k) {
      SMergeFilter(x, y, k);
      FilterConcat(s, t, k);
      assert Filter(s, k) == Filter(x, k) && Filter(t, k) == Filter(y, k);
    }
  }

  // Comparability depends on the records only.
  lemma ComparableAgain(s: seq<Elem>, t: seq<Elem>)
    requires Comparable(s) && multiset(s) == multiset(t)
    ensures Comparable(t)
  {
    forall i, j | 0 <= i < |t| && 0 <= j < |t| ensures Int32(t[i].key - t[j].key) {
      assert t[i] in multiset(t) && t[j] in multiset(t);
      assert t[i] in s && t[j] in s;
    }
  }

  // ---------- merge sort ----------

  /** merge_sort_serial on the sequence between l and r. */
  function MSort(s: seq<Elem>): (t: seq<Elem>)
    ensures |t| == |s|
    decreases |s|
  {
    if |s| <= 1 then s else
      var m := (|s| - 1) / 2 + 1;
      SMerge(MSort(s[..m]), MSort(s[m..]))
  }

  lemma MSortUnfold(w: seq<Elem>, k: nat)
    requires |w| > 1 && k == (|w| - 1) / 2 + 1
    ensures MSort(w) == SMerge(MSort(w[..k]), MSort(w[k..]))
  {
  }

  lemma {:induction false} MSortStable(s: seq<Elem>)
    requires Comparable(s)
    ensures StablySorted(s, MSort(s))
    decreases |s|
  {
    if |s| > 1 {
      hide *;
      var m := (|s| - 1) / 2 + 1;
      MSortUnfold(s, m);
      ComparableParts(s, m);
      MSortStable(s[..m]);
      MSortStable(s[m..]);
      HalvesStable(s, m, MSort(s[..m]), MSort(s[m..]));
    }
  }

  lemma ComparableParts(s: seq<Elem>, m: nat)
    requires m <= |s| && Comparable(s)
    ensures Comparable(s[..m]) && Comparable(s[m..])
  {
  }

  lemma HalvesStable(s: seq<Elem>, m: nat, x: seq<Elem>, y: seq<Elem>)
    requires m <= |s| && Comparable(s) && StablySorted(s[..m], x) && StablySorted(s[m..], y)
    ensures StablySorted(s, SMerge(x, y))
  {
    hide SMerge, Filter;
    SamePermutation(s[..m], x);
    SamePermutation(s[m..], y);
    assert s == s[..m] + s[m..];
    ComparableAgain(s, x + y);
    SMergeStable(s[..m], s[m..], x, y);
  }

  // ---------- insertion sort ----------

  // Move x left past every element that compares greater.
  function Insert(s: seq<Elem>, x: Elem): (t: seq<Elem>)
    ensures |t| == |s| + 1
  {
    if s == [] || Le(s[|s| - 1], x) then s + [x] else Insert(s[..|s| - 1], x) + [s[|s| - 1]]
  }

  function ISort(s: seq<Elem>): (t: seq<Elem>)
    ensures |t| == |s|
  {
    if s == [] then [] else Insert(ISort(s[..|s| - 1]), s[|s| - 1])
  }

  lemma {:induction false} InsertStable(s: seq<Elem>, x: Elem)
    requires Ordered(s) && Comparable(s + [x])
    ensures StablySorted(s + [x], Insert(s, x))
  {
    hide Filter, Le, Comparable;
    if s == [] || Le(s[|s| - 1], x) {
      Appended(s, x);
    } else {
      var n := |s| - 1;
      var front := s[..n];
      LastBehind(s, x);
      InsertStable(front, x);
      hide Insert, SameRecords, Ordered;
      SamePermutation(front + [x], Insert(front, x));
      InsertedLast(front, x, Insert(front, x), s[n]);
      InsertRecords(front, s[n], x, Insert(front, x));
      assert s == front + [s[n]];
    }
  }

  lemma Appended(s: seq<Elem>, x: Elem)
    requires Ordered(s) && Comparable(s + [x]) && (s != [] ==> Le(s[|s| - 1], x))
    ensures Ordered(s + [x])
  {
    if s != [] {
      assert (s + [x])[|s| - 1] == s[|s| - 1] && (s + [x])[|s|] == x;
      LeExactly(s[|s| - 1], x);
    }
  }

  lemma LastBehind(s: seq<Elem>, x: Elem)
    requires s != [] && Ordered(s) && Comparable(s + [x]) && !Le(s[|s| - 1], x)
    ensures x.key < s[|s| - 1].key && Ordered(s[..|s| - 1]) && Comparable(s[..|s| - 1] + [x])
    ensures forall i :: 0 <= i < |s| - 1 ==> s[i].key <= s[|s| - 1].key
  {
    assert (s + [x])[|s| - 1] == s[|s| - 1] && (s + [x])[|s|] == x;
    LeExactly(s[|s| - 1], x);
    ComparableDrop(s, |s| - 1, x);
  }

  lemma InsertRecords(front: seq<Elem>, y: Elem, x: Elem, t: seq<Elem>)
    requires SameRecords(front + [x], t) && x.key < y.key
    ensures SameRecords(front + [y] + [x], t + [y])
  {
    forall k ensures Filter(front + [y] + [x], k) == Filter(t + [y], k) {
      InsertFilter(front, y, x, t, k);
    }
  }

  // For keys whose difference is an int.
  lemma LeExactly(a: Elem, b: Elem)
    requires Int32(a.key - b.key)
    ensures Le(a, b) <==> a.key <= b.key
  {
  }

  lemma ComparableDrop(s: seq<Elem>, n: nat, x: Elem)
    requires n < |s| && Comparable(s + [x])
    ensures Comparable(s[..n] + [x])
  {
    var u, v := s + [x], s[..n] + [x];
    forall i, j | 0 <= i < |v| && 0 <= j < |v| ensures Int32(v[i].key - v[j].key) {
      assert v[i] == u[if i < n then i else |s|] && v[j] == u[if j < n then j else |s|];
    }
  }

  lemma InsertedLast(front: seq<Elem>, x: Elem, t: seq<Elem>, last: Elem)
    requires Ordered(t) && multiset(t) == multiset(front + [x]) && x.key <= last.key
    requires forall i :: 0 <= i < |front| ==> front[i].key <= last.key
    ensures Ordered(t + [last])
  {
    forall i | 0 <= i < |t| ensures t[i].key <= last.key {
      assert t[i] in multiset(t);
      assert t[i] in front + [x];
    }
  }

  lemma InsertFilter(front: seq<Elem>, last: Elem, x: Elem, t: seq<Elem>, k: int)
    requires last.key != x.key && Filter(front + [x], k) == Filter(t, k)
    ensures Filter(front + [last] + [x], k) == Filter(t + [last], k)
  {
    FilterConcat(front + [last], [x], k);
    FilterConcat(front, [last], k);
    FilterConcat(front, [x], k);
    FilterConcat(t, [last], k);
  }

  lemma {:induction false} ISortStable(s: seq<Elem>)
    requires Comparable(s)
    ensures StablySorted(s, ISort(s))
  {
    if s != [] {
      var n := |s| - 1;
      var t := ISort(s[..n]);
      ISortStable(s[..n]);
      SamePermutation(s[..n], t);
      assert s == s[..n] + [s[n]];
      ComparableAgain(s, t + [s[n]]);
      InsertStable(t, s[n]);
      forall k ensures Filter(s, k) == Filter(ISort(s), k) {
        FilterConcat(s[..n], [s[n]], k);
        FilterConcat(t, [s[n]], k);
        assert Filter(t + [s[n]], k) == Filter(Insert(t, s[n]), k);
      }
    }
  }

  // ---------- bubble sort ----------

  function Swapped(s: seq<Elem>, i: nat): (t: seq<Elem>)
    requires i + 1 < |s|
  {
    s[i := s[i + 1]][i + 1 := s[i]]
  }

  // The inner loop after k comparisons.
  function Pass(s: seq<Elem>, k: nat): (t: seq<Elem>)
    requires k < |s|
    ensures |t| == |s|
  {
    if k == 0 then s else
      var p := Pass(s, k - 1);
      if Le(p[k - 1], p[k]) then p else Swapped(p, k - 1)
  }

  // The outer loop after j turns.
  function BSort(s: seq<Elem>, j: nat): (t: seq<Elem>)
    requires j < |s| || j == 0
    ensures |t| == |s|
  {
    if j == 0 then s else Pass(BSort(s, j - 1), |s| - j)
  }

  lemma SwapFilter(a: seq<Elem>, x: Elem, y: Elem, b: seq<Elem>, k: int)
    requires x.key != y.key
    ensures Filter(a + ([x, y] + b), k) == Filter(a + ([y, x] + b), k)
  {
    FilterConcat(a, [x, y] + b, k);
    FilterConcat(a, [y, x] + b, k);
    assert ([x, y] + b)[1..] == [y] + b && ([y, x] + b)[1..] == [x] + b;
    assert ([y] + b)[1..] == b && ([x] + b)[1..] == b;
  }

  // Exchanging neighbours with different keys keeps the records of each key in order.
  lemma SwapRecords(s: seq<Elem>, i: nat)
    requires i + 1 < |s| && s[i].key != s[i + 1].key
    ensures SameRecords(s, Swapped(s, i))
  {
    assert s == s[..i] + ([s[i], s[i + 1]] + s[i + 2..]);
    assert Swapped(s, i) == s[..i] + ([s[i + 1], s[i]] + s[i + 2..]);
    forall k ensures Filter(s, k) == Filter(Swapped(s, i), k) {
      SwapFilter(s[..i], s[i], s[i + 1], s[i + 2..], k);
    }
  }

  lemma {:induction false} PassRecords(s: seq<Elem>, k: nat)
    requires k < |s| && Comparable(s)
    ensures SameRecords(s, Pass(s, k)) && Comparable(Pass(s, k))
  {
    if k > 0 {
      PassRecords(s, k - 1);
      var p := Pass(s, k - 1);
      LeExactly(p[k - 1], p[k]);
      if !Le(p[k - 1], p[k]) {
        SwapRecords(p, k - 1);
        forall c ensures Filter(s, c) == Filter(Swapped(p, k - 1), c) {
          assert Filter(s, c) == Filter(p, c);
        }
      }
      SamePermutation(s, Pass(s, k));
      ComparableAgain(s, Pass(s, k));
    }
  }

  // A pass carries the largest of the first k + 1 elements to position k and leaves the rest alone.
  lemma {:induction false} PassMax(s: seq<Elem>, k: nat)
    requires k < |s| && Comparable(s)
    ensures forall i :: k < i < |s| ==> Pass(s, k)[i] == s[i]
    ensures forall i :: 0 <= i < k ==> Pass(s, k)[i].key <= Pass(s, k)[k].key
  {
    if k > 0 {
      PassMax(s, k - 1);
      PassRecords(s, k - 1);
      var p := Pass(s, k - 1);
      LeExactly(p[k - 1], p[k]);
    }
  }

  lemma Cancel(a: multiset<Elem>, b: multiset<Elem>, c: multiset<Elem>)
    requires a + c == b + c
    ensures a == b
  {
    forall e: Elem ensures a[e] == b[e] {
      assert (a + c)[e] == a[e] + c[e] && (b + c)[e] == b[e] + c[e];
    }
  }

  // The same elements are among the first k + 1.
  lemma PassPrefix(s: seq<Elem>, k: nat, i: nat)
    requires k < |s| && Comparable(s) && i <= k
    ensures Pass(s, k)[i] in s[..k + 1]
  {
    var q := Pass(s, k);
    PassMax(s, k);
    PassRecords(s, k);
    SamePermutation(s, q);
    assert q[k + 1..] == s[k + 1..];
    assert q == q[..k + 1] + q[k + 1..] && s == s[..k + 1] + s[k + 1..];
    assert multiset(q) == multiset(q[..k + 1]) + multiset(q[k + 1..]);
    assert multiset(s) == multiset(s[..k + 1]) + multiset(s[k + 1..]);
    Cancel(multiset(q[..k + 1]), multiset(s[..k + 1]), multiset(s[k + 1..]));
    assert q[i] in q[..k + 1];
    assert q[i] in multiset(q[..k + 1]);
  }

  // The last j elements are in their final places.
  ghost predicate Settled(t: seq<Elem>, j: nat)
    requires j <= |t|
  {
    forall i, i' :: 0 <= i < i' < |t| && |t| - j <= i' ==> t[i].key <= t[i'].key
  }

  lemma {:induction false} BSortSettles(s: seq<Elem>, j: nat)
    requires (j < |s| || j == 0) && Comparable(s)
    ensures SameRecords(s, BSort(s, j)) && Comparable(BSort(s, j)) && Settled(BSort(s, j), j)
  {
    if j > 0 {
      BSortSettles(s, j - 1);
      var p := BSort(s, j - 1);
      PassRecords(p, |s| - j);
      PassSettles(p, j);
      forall k ensures Filter(s, k) == Filter(BSort(s, j), k) {
        assert Filter(s, k) == Filter(p, k) && Filter(p, k) == Filter(BSort(s, j), k);
      }
    }
  }

  lemma PassSettles(p: seq<Elem>, j: nat)
    requires 0 < j < |p| && Comparable(p) && Settled(p, j - 1)
    ensures Settled(Pass(p, |p| - j), j)
  {
    var k, q := |p| - j, Pass(p, |p| - j);
    PassMax(p, k);
    forall i, i' | 0 <= i < i' < |q| && k <= i' ensures q[i].key <= q[i'].key {
      if i' > k && i <= k { PassPrefix(p, k, i); }
    }
  }

  lemma BSortStable(s: seq<Elem>)
    requires Comparable(s)
    ensures StablySorted(s, BSort(s, if s == [] then 0 else |s| - 1))
  {
    BSortSettles(s, if s == [] then 0 else |s| - 1);
  }

  /** The three serial sorts leave identical arrays, duplicates included. */
  lemma SerialSortsAgree(s: seq<Elem>)
    requires Comparable(s)
    ensures MSort(s) == ISort(s) == BSort(s, if s == [] then 0 else |s| - 1)
  {
    MSortStable(s);
    ISortStable(s);
    BSortStable(s);
    SortsAgree(s, MSort(s), ISort(s));
    SortsAgree(s, MSort(s), BSort(s, if s == [] then 0 else |s| - 1));
  }

  // ---------- arrays ----------

  /** r is s with the elements from l on replaced by t. */
  ghost predicate Wrote(s: seq<Elem>, l: nat, t: seq<Elem>, r: seq<Elem>) {
    l + |t| <= |s| == |r| && r[..l] == s[..l] && r[l..l + |t|] == t && r[l + |t|..] == s[l + |t|..]
  }

  // Writing t and then u behind it is writing t + u.
  lemma WroteJoin(s: seq<Elem>, l: nat, t: seq<Elem>, a: seq<Elem>, u: seq<Elem>, b: seq<Elem>)
    requires Wrote(s, l, t, a) && Wrote(a, l + |t|, u, b)
    ensures Wrote(s, l, t + u, b)
  {
    var n := l + |t|;
    assert b[..l] == b[..n][..l] && b[l..n] == b[..n][l..];
    assert b[l..n + |u|] == b[l..n] + b[n..n + |u|];
    assert s[n + |u|..] == s[n..][|u|..] && a[n + |u|..] == a[n..][|u|..];
  }

  // The second of two writes to the same place stays.
  lemma WroteAgain(s: seq<Elem>, l: nat, t: seq<Elem>, a: seq<Elem>, u: seq<Elem>, b: seq<Elem>)
    requires Wrote(s, l, t, a) && Wrote(a, l, u, b) && |t| <= |u|
    ensures Wrote(s, l, u, b)
  {
    assert s[l + |u|..] == s[l + |t|..][|u| - |t|..] && a[l + |u|..] == a[l + |t|..][|u| - |t|..];
  }

  lemma WroteOne(s: seq<Elem>, i: nat, e: Elem)
    requires i < |s|
    ensures Wrote(s, i, [e], s[i := e])
  {
  }

  // ---------- mergesort.c ----------

  // One turn of the outer loop of insertion_sort: put element l + i into the sorted part before it.
  method InsertAt(arr: array<Elem>, l: nat, i: nat)
    requires l + i < arr.Length
    modifies arr
    ensures Wrote(old(arr[..]), l, Insert(old(arr[..])[l..l + i], old(arr[..])[l + i]), arr[..])
  {
    hide Insert, Le, Wrote, Shifted;
    ghost var s := arr[..];
    ghost var t := s[l..l + i];
    var temp := arr[l + i];
    var j := i;
    NotShifted(s, l, i);
    while j > 0 && !Le(arr[l + j - 1], temp)
      invariant 0 <= j <= i && Shifted(s, l, i, j, arr[..]) && (j > 0 ==> arr[l + j - 1] == t[j - 1])
      invariant forall m :: j <= m < i ==> !Le(t[m], temp)
    {
      ShiftMore(s, l, i, j, arr[..]);
      arr[l + j] := arr[l + j - 1];
      j := j - 1;
    }
    ShiftEnd(s, l, i, j, arr[..], temp);
    arr[l + j] := temp;
    InsertSplit(t, temp, j);
    InsertedWrote(s, l, i, j, temp, arr[..]);
  }

  // The elements from l + j up to l + i have moved one place up.
  ghost predicate Shifted(s: seq<Elem>, l: nat, i: nat, j: nat, a: seq<Elem>) {
    && l + i < |s| == |a| && j <= i
    && (forall m :: 0 <= m < l + j ==> a[m] == s[m])
    && (forall m :: l + j <= m < l + i ==> a[m + 1] == s[m])
    && (forall m :: l + i < m < |s| ==> a[m] == s[m])
  }

  lemma NotShifted(s: seq<Elem>, l: nat, i: nat)
    requires l + i < |s|
    ensures Shifted(s, l, i, i, s)
  {
  }

  lemma ShiftMore(s: seq<Elem>, l: nat, i: nat, j: nat, a: seq<Elem>)
    requires Shifted(s, l, i, j, a) && 0 < j
    ensures var b := a[l + j := a[l + j - 1]]; Shifted(s, l, i, j - 1, b) && (j > 1 ==> b[l + j - 2] == s[l..l + i][j - 2])
  {
  }

  lemma ShiftEnd(s: seq<Elem>, l: nat, i: nat, j: nat, a: seq<Elem>, x: Elem)
    requires Shifted(s, l, i, j, a)
    ensures Shifted(s, l, i, j, a[l + j := x])
  {
  }

  lemma InsertedWrote(s: seq<Elem>, l: nat, i: nat, j: nat, x: Elem, a: seq<Elem>)
    requires Shifted(s, l, i, j, a) && a[l + j] == x
    ensures Wrote(s, l, s[l..l + i][..j] + [x] + s[l..l + i][j..], a)
  {
    var w := s[l..l + i];
    assert a[l..l + j] == w[..j];
    assert a[l + j + 1..l + i + 1] == w[j..];
    assert a[l..l + i + 1] == a[l..l + j] + [x] + a[l + j + 1..l + i + 1];
  }

  lemma {:induction false} InsertSplit(t: seq<Elem>, x: Elem, j: nat)
    requires j <= |t| && (j > 0 ==> Le(t[j - 1], x)) && forall m :: j <= m < |t| ==> !Le(t[m], x)
    ensures Insert(t, x) == t[..j] + [x] + t[j..]
  {
    hide Le;
    if j < |t| {
      InsertSplit(t[..|t| - 1], x, j);
      assert t[..|t| - 1][..j] == t[..j] && t[j..] == t[..|t| - 1][j..] + [t[|t| - 1]];
    }
  }

  /** insertion_sort of the n elements from l on. */
  method InsertionSort(arr: array<Elem>, l: nat, n: nat)
    requires l + n <= arr.Length
    modifies arr
    ensures Wrote(old(arr[..]), l, ISort(old(arr[..])[l..l + n]), arr[..])
  {
    ghost var s := arr[..];
    ghost var w := s[l..l + n];
    var i := if n == 0 then 0 else 1;
    assert n > 0 ==> w[..1][..0] == [] && ISort(w[..1]) == [w[0]];
    while i < n
      invariant 0 <= i <= n && Wrote(s, l, ISort(w[..i]), arr[..])
    {
      ghost var a := arr[..];
      InsertAt(arr, l, i);
      SortedStep(s, l, w, i, a, arr[..]);
      i := i + 1;
    }
    assert w[..i] == w;
  }

  lemma SortedStep(s: seq<Elem>, l: nat, w: seq<Elem>, i: nat, a: seq<Elem>, b: seq<Elem>)
    requires i < |w| && l + |w| <= |s| && s[l..l + |w|] == w
    requires Wrote(s, l, ISort(w[..i]), a) && Wrote(a, l, Insert(a[l..l + i], a[l + i]), b)
    ensures Wrote(s, l, ISort(w[..i + 1]), b)
  {
    assert w[..i + 1][..i] == w[..i] && w[..i + 1][i] == w[i];
    assert a[l + i] == a[l + i..][0] && s[l + i] == s[l + i..][0] && w[i] == s[l + i];
    WroteAgain(s, l, ISort(w[..i]), a, Insert(a[l..l + i], a[l + i]), b);
  }

  /** bubble_sort_elem of the whole array. */
  method BubbleSort(arr: array<Elem>)
    modifies arr
    ensures arr[..] == BSort(old(arr[..]), if arr.Length == 0 then 0 else arr.Length - 1)
  {
    ghost var s := arr[..];
    var n, j := arr.Length, 0;
    while j < n - 1
      invariant 0 <= j <= n && (n > 0 ==> j <= n - 1) && arr[..] == BSort(s, j)
    {
      ghost var t := arr[..];
      var i := 0;
      while i < n - j - 1
        invariant 0 <= i <= n - j - 1 && arr[..] == Pass(t, i)
      {
        if !Le(arr[i], arr[i + 1]) {
          arr[i], arr[i + 1] := arr[i + 1], arr[i];
        }
        i := i + 1;
      }
      j := j + 1;
    }
  }

  // The merge loop into dst: x and y are the two inputs.
  method MergeLoop(x: seq<Elem>, y: seq<Elem>, dst: array<Elem>, start: nat)
    requires start + |x| + |y| <= dst.Length
    modifies dst
    ensures Wrote(old(dst[..]), start, SMerge(x, y), dst[..])
  {
    hide SMerge;
    ghost var s := dst[..];
    var i, j, k := 0, 0, start;
    ghost var done: seq<Elem> := [];
    while i < |x| && j < |y|
      invariant 0 <= i <= |x| && 0 <= j <= |y| && k == start + i + j && |done| == i + j
      invariant Wrote(s, start, done, dst[..]) && done + SMerge(x[i..], y[j..]) == SMerge(x, y)
    {
      MergeStep(x, y, i, j, done);
      ghost var a := dst[..];
      var e := if Le(x[i], y[j]) then x[i] else y[j];
      dst[k] := e;
      WroteOne(a, k, e);
      WroteJoin(s, start, done, a, [e], dst[..]);
      done := done + [e];
      if Le(x[i], y[j]) { i := i + 1; } else { j := j + 1; }
      k := k + 1;
    }
    MergeRest(x[i..], y[j..]);
    ghost var a := dst[..];
    CopyRests(x[i..], y[j..], dst, k);
    WroteJoin(s, start, done, a, x[i..] + y[j..], dst[..]);
  }

  lemma MergeRest(x: seq<Elem>, y: seq<Elem>)
    requires x == [] || y == []
    ensures SMerge(x, y) == x + y
  {
  }

  lemma MergeStep(x: seq<Elem>, y: seq<Elem>, i: nat, j: nat, done: seq<Elem>)
    requires i < |x| && j < |y| && done + SMerge(x[i..], y[j..]) == SMerge(x, y)
    ensures if Le(x[i], y[j]) then done + [x[i]] + SMerge(x[i + 1..], y[j..]) == SMerge(x, y)
            else done + [y[j]] + SMerge(x[i..], y[j + 1..]) == SMerge(x, y)
  {
    hide SMerge;
    var u, v := x[i..], y[j..];
    assert u[1..] == x[i + 1..] && v[1..] == y[j + 1..];
    SMergeUnfold(u, v);
    if Le(x[i], y[j]) {
      assert done + ([x[i]] + SMerge(u[1..], v)) == done + [x[i]] + SMerge(u[1..], v);
    } else {
      assert done + ([y[j]] + SMerge(u, v[1..])) == done + [y[j]] + SMerge(u, v[1..]);
    }
  }

  lemma SMergeUnfold(x: seq<Elem>, y: seq<Elem>)
    requires x != [] && y != []
    ensures Le(x[0], y[0]) ==> SMerge(x, y) == [x[0]] + SMerge(x[1..], y)
    ensures !Le(x[0], y[0]) ==> SMerge(x, y) == [y[0]] + SMerge(x, y[1..])
  {
  }

  // One of the loops that copy what is left.
  method CopyRest(x: seq<Elem>, dst: array<Elem>, k: nat)
    requires k + |x| <= dst.Length
    modifies dst
    ensures Wrote(old(dst[..]), k, x, dst[..])
  {
    ghost var s := dst[..];
    var i := 0;
    while i < |x|
      invariant 0 <= i <= |x| && Wrote(s, k, x[..i], dst[..])
    {
      ghost var a := dst[..];
      dst[k + i] := x[i];
      WroteOne(a, k + i, x[i]);
      WroteJoin(s, k, x[..i], a, [x[i]], dst[..]);
      assert x[..i] + [x[i]] == x[..i + 1];
      i := i + 1;
    }
    assert x[..i] == x;
  }

  method CopyRests(x: seq<Elem>, y: seq<Elem>, dst: array<Elem>, k: nat)
    requires k + |x| + |y| <= dst.Length
    modifies dst
    ensures Wrote(old(dst[..]), k, x + y, dst[..])
  {
    ghost var s := dst[..];
    CopyRest(x, dst, k);
    ghost var a := dst[..];
    CopyRest(y, dst, k + |x|);
    WroteJoin(s, k, x, a, y, dst[..]);
  }

  /** merge_serial of arr[p..q] and arr[q + 1..r], both ends included, through copies of the two. */
  method MergeSerial(arr: array<Elem>, p: nat, q: int, r: int)
    requires p - 1 <= q <= r < arr.Length
    modifies arr
    ensures Wrote(old(arr[..]), p, SMerge(old(arr[..])[p..q + 1], old(arr[..])[q + 1..r + 1]), arr[..])
  {
    assert arr[p..q + 1] == arr[..][p..q + 1] && arr[q + 1..r + 1] == arr[..][q + 1..r + 1];
    MergeLoop(arr[p..q + 1], arr[q + 1..r + 1], arr, p);
  }

  /** merge_sort_serial of arr[l..r], both ends included. */
  method MergeSortSerial(arr: array<Elem>, l: nat, r: int)
    requires l - 1 <= r < arr.Length
    modifies arr
    ensures Wrote(old(arr[..]), l, MSort(old(arr[..])[l..r + 1]), arr[..])
    decreases r - l + 1
  {
    hide MSort, SMerge, Wrote;
    ghost var s := arr[..];
    if l < r {
      var m := l + (r - l) / 2;
      MergeSortSerial(arr, l, m);
      ghost var a := arr[..];
      MergeSortSerial(arr, m + 1, r);
      ghost var b := arr[..];
      MergeSerial(arr, l, m, r);
      HalvesJoin(s, l, m + 1, r + 1, a, b, arr[..]);
    } else {
      NothingToSort(s, l, r + 1);
    }
  }

  lemma NothingToSort(s: seq<Elem>, l: nat, r: nat)
    requires l <= r <= |s| && r - l <= 1
    ensures Wrote(s, l, MSort(s[l..r]), s)
  {
    assert MSort(s[l..r]) == s[l..r];
  }

  // Sorting the left part, then the right part, then merging both.
  lemma HalvesJoin(s: seq<Elem>, l: nat, m: nat, r: nat, a: seq<Elem>, b: seq<Elem>, c: seq<Elem>)
    requires l < m < r <= |s| == |a| == |b| && m - l == (r - l - 1) / 2 + 1
    requires Wrote(s, l, MSort(s[l..m]), a) && Wrote(a, m, MSort(a[m..r]), b)
    requires Wrote(b, l, SMerge(b[l..m], b[m..r]), c)
    ensures Wrote(s, l, MSort(s[l..r]), c)
  {
    hide MSort, SMerge;
    var w := s[l..r];
    MSortUnfold(w, m - l);
    assert w[..m - l] == s[l..m] && w[m - l..] == s[m..r];
    PartsJoin(s, l, m, r, MSort(s[l..m]), a, MSort(a[m..r]), b, SMerge(b[l..m], b[m..r]), c);
  }

  lemma PartsJoin(s: seq<Elem>, l: nat, m: nat, r: nat, x: seq<Elem>, a: seq<Elem>, y: seq<Elem>, b: seq<Elem>,
                  z: seq<Elem>, c: seq<Elem>)
    requires l <= m <= r <= |s| && |x| == m - l && |y| == r - m && |z| == r - l
    requires Wrote(s, l, x, a) && Wrote(a, m, y, b) && Wrote(b, l, z, c)
    ensures a[m..r] == s[m..r] && b[l..m] == x && b[m..r] == y && Wrote(s, l, z, c)
  {
    assert a[m..r] == a[m..][..r - m] && s[m..r] == s[m..][..r - m];
    assert b[l..m] == b[..m][l..] && a[l..m] == a[..m][l..];
    WroteJoin(s, l, x, a, y, b);
    WroteAgain(s, l, x + y, b, z, c);
  }
}
