/** bio.c in its own form: the doubly linked ring of buffers, most recently released first. */
module BufferCache {
  import opened LogFormat
  import opened BufferLog
  import opened Wrappers

  // ---------- rings ----------

  ghost predicate NoRepeats(s: seq<nat>) {
    forall i, j :: 0 <= i < j < |s| ==> s[i] != s[j]
  }

  // The ring: head, the listed buffers, and head again.
  ghost function Ring(h: nat, order: seq<nat>): seq<nat> {
    [h] + order + [h]
  }

  // next and prev run through the ring in both directions.
  ghost predicate Links(h: nat, order: seq<nat>, next: seq<nat>, prev: seq<nat>) {
    && |next| == h + 1 && |prev| == h + 1 && NoRepeats(order)
    && (forall i :: 0 <= i < |order| ==> order[i] < h)
    && forall k :: 0 <= k <= |order| ==>
         next[Ring(h, order)[k]] == Ring(h, order)[k + 1] && prev[Ring(h, order)[k + 1]] == Ring(h, order)[k]
  }

  ghost function Without(order: seq<nat>, k: nat): seq<nat>
    requires k < |order|
  {
    order[..k] + order[k + 1..]
  }

  ghost function ToFront(order: seq<nat>, k: nat): seq<nat>
    requires k < |order|
  {
    [order[k]] + Without(order, k)
  }

  lemma LinksRemove(h: nat, order: seq<nat>, k: nat, next: seq<nat>, prev: seq<nat>)
    requires Links(h, order, next, prev) && k < |order|
    ensures var b := order[k];
      next[b] <= h && prev[b] <= h && Links(h, Without(order, k), next[prev[b] := next[b]], prev[next[b] := prev[b]])
  {
    var b, r, order' := order[k], Ring(h, order), Without(order, k);
    var r' := Ring(h, order');
    RingDistinct(h, order);
    assert r[k + 1] == b && prev[b] == r[k] && next[b] == r[k + 2];
    var next', prev' := next[prev[b] := next[b]], prev[next[b] := prev[b]];
    assert forall j :: 0 <= j < |r'| ==> r'[j] == if j <= k then r[j] else r[j + 1];
    forall j | 0 <= j <= |order'| ensures next'[r'[j]] == r'[j + 1] && prev'[r'[j + 1]] == r'[j] {
      var m := if j <= k then j else j + 1;
      assert r'[j] == r[m] && next[r[m]] == r[m + 1] && prev[r[m + 1]] == r[m];
      assert j != k ==> r'[j + 1] == r[m + 1];
    }
  }

  // The head stands at both ends and nothing else repeats.
  lemma RingDistinct(h: nat, order: seq<nat>)
    requires NoRepeats(order) && forall i :: 0 <= i < |order| ==> order[i] < h
    ensures forall i, j :: 0 <= i < j <= |order| ==> Ring(h, order)[i] != Ring(h, order)[j]
    ensures forall i, j :: 1 <= i < j <= |order| + 1 ==> Ring(h, order)[i] != Ring(h, order)[j]
  {
  }

  lemma LinksPush(h: nat, order: seq<nat>, b: nat, next: seq<nat>, prev: seq<nat>)
    requires Links(h, order, next, prev) && b < h && b !in order
    ensures next[h] <= h
    ensures Links(h, [b] + order, next[b := next[h]][h := b], prev[b := h][next[h] := b])
  {
    var r, r' := Ring(h, order), Ring(h, [b] + order);
    assert r[0] == h && next[h] == r[1];
    assert forall j :: 1 <= j < |r'| ==> r'[j] == if j == 1 then b else r[j - 1];
  }

  // ---------- the cache ----------

  predicate Matches(b: Buf, dev: nat, blockno: int) {
    b.dev == dev && b.blockno == blockno
  }

  // bget may recycle the buffer.
  predicate Recyclable(b: Buf) {
    b.refcnt == 0 && !b.dirty
  }

  class Cache {
    const nbuf: nat
    const bufs: array<Buf>
    const next: array<nat>      // links; index nbuf is bcache.head
    const prev: array<nat>
    ghost var order: seq<nat>   // the ring from head.next to head.prev
    ghost var clock: nat
    ghost var released: seq<nat>   // when each buffer last became unreferenced; 0 for never

    ghost predicate Valid()
      reads this, bufs, next, prev
    {
      && bufs.Length == nbuf && next != prev && Links(nbuf, order, next[..], prev[..])
      && |order| == nbuf && |released| == nbuf
      && (forall i :: 0 <= i < nbuf ==> i in order)
      && (forall i :: 0 <= i < nbuf ==> released[i] <= clock)
      && Recency(order, released)
    }

    /** binit: push every buffer to the front of an empty ring. */
    constructor (n: nat, data: Block)
      ensures Valid() && nbuf == n && fresh(bufs) && fresh(next) && fresh(prev)
      ensures forall i :: 0 <= i < n ==> bufs[i] == Buf(0, 0, false, false, 0, data, None)
    {
      nbuf := n;
      bufs := new Buf[n](_ => Buf(0, 0, false, false, 0, data, None));
      next := new nat[n + 1](_ => n);
      prev := new nat[n + 1](_ => n);
      clock := 0;
      released := seq(n, _ => 0);
      order := [];
      new;
      var b := 0;
      while b < n
        invariant 0 <= b <= n && Links(n, order, next[..], prev[..]) && |order| == b
        invariant forall i :: 0 <= i < n ==> (i in order <==> i < b)
        invariant released == seq(n, _ => 0) && clock == 0
        invariant forall i :: 0 <= i < n ==> bufs[i] == Buf(0, 0, false, false, 0, data, None)
      {
        PushFront(b);
        b := b + 1;
      }
    }

    // Insert b right after head.
    method PushFront(b: nat)
      requires next != prev && Links(nbuf, order, next[..], prev[..]) && b < nbuf && b !in order
      modifies next, prev, this`order
      ensures Links(nbuf, order, next[..], prev[..]) && order == [b] + old(order)
    {
      LinksPush(nbuf, order, b, next[..], prev[..]);
      ghost var next0: seq<nat>, prev0: seq<nat> := next[..], prev[..];
      next[b] := next[nbuf];
      prev[b] := nbuf;
      prev[next[nbuf]] := b;
      next[nbuf] := b;
      order := [b] + order;
      assert next[..] == next0[b := next0[nbuf]][nbuf := b];
      assert prev[..] == prev0[b := nbuf][next0[nbuf] := b];
    }

    // Take b out of the ring.
    method Unlink(b: nat, ghost k: nat)
      requires next != prev && Links(nbuf, order, next[..], prev[..]) && k < |order| && order[k] == b
      modifies next, prev, this`order
      ensures Links(nbuf, order, next[..], prev[..]) && order == Without(old(order), k)
    {
      LinksRemove(nbuf, order, k, next[..], prev[..]);
      ghost var next0: seq<nat>, prev0: seq<nat> := next[..], prev[..];
      prev[next[b]] := prev[b];
      next[prev[b]] := next[b];
      order := Without(order, k);
      assert next[..] == next0[prev0[b] := next0[b]];
      assert prev[..] == prev0[next0[b] := prev0[b]];
    }

    // First loop of bget: is the block cached?
    method FindCached(dev: nat, blockno: int) returns (b: nat)
      requires Valid()
      ensures b <= nbuf && (b < nbuf ==> Matches(bufs[b], dev, blockno))
      ensures b == nbuf ==> forall i :: 0 <= i < nbuf ==> !Matches(bufs[i], dev, blockno)
    {
      b := next[nbuf];
      ghost var k := 0;
      assert Ring(nbuf, order)[0] == nbuf;
      while b != nbuf && !Matches(bufs[b], dev, blockno)
        invariant 0 <= k <= nbuf && b == Ring(nbuf, order)[k + 1] && (b == nbuf ==> k == nbuf)
        invariant forall i :: 0 <= i < k ==> !Matches(bufs[order[i]], dev, blockno)
        decreases nbuf - k
      {
        b := next[b];
        k := k + 1;
        assert Ring(nbuf, order)[k] == order[k - 1];
      }
      if b == nbuf {
        forall i | 0 <= i < nbuf ensures !Matches(bufs[i], dev, blockno) {
          assert i in order;
        }
      }
    }

    // Second loop of bget: the first buffer from the tail that may be recycled.
    method FindVictim() returns (b: nat)
      requires Valid()
      ensures b <= nbuf
      ensures b < nbuf ==> Recyclable(bufs[b])
      ensures b < nbuf ==> forall i :: 0 <= i < nbuf && Recyclable(bufs[i]) ==> released[b] <= released[i]
      ensures b == nbuf ==> forall i :: 0 <= i < nbuf ==> !Recyclable(bufs[i])
    {
      b := prev[nbuf];
      ghost var k := nbuf;
      assert Ring(nbuf, order)[nbuf + 1] == nbuf;
      while b != nbuf && !Recyclable(bufs[b])
        invariant 0 <= k <= nbuf && b == Ring(nbuf, order)[k] && (b == nbuf ==> k == 0)
        invariant forall i :: k <= i < nbuf ==> !Recyclable(bufs[order[i]])
        decreases k
      {
        b := prev[b];
        k := k - 1;
      }
      forall i | 0 <= i < nbuf && Recyclable(bufs[i]) ensures b < nbuf && released[b] <= released[i] {
        assert i in order;
        var j :| 0 <= j < nbuf && order[j] == i;
        assert j < k && b == order[k - 1];
        assert When(order, released, j) >= When(order, released, k - 1);
      }
    }

    /** bget, under bcache.lock: the cached buffer of the block if there is one; otherwise the least
        recently released buffer that is unreferenced and not pinned; otherwise a panic. */
    method Bget(dev: nat, blockno: int) returns (b: nat)
      requires Valid()
      modifies bufs
      ensures Valid() && b <= nbuf
      ensures forall i :: 0 <= i < nbuf && i != b ==> bufs[i] == old(bufs[i])
      ensures b < nbuf && Matches(old(bufs[b]), dev, blockno) ==>
        bufs[b] == old(bufs[b]).(refcnt := old(bufs[b]).refcnt + 1)
      ensures b < nbuf && !Matches(old(bufs[b]), dev, blockno) ==>
        && (forall i :: 0 <= i < nbuf ==> !Matches(old(bufs[i]), dev, blockno))
        && old(bufs[b]).refcnt == 0 && !old(bufs[b]).dirty
        && (forall i :: 0 <= i < nbuf && old(bufs[i]).refcnt == 0 && !old(bufs[i]).dirty ==> released[b] <= released[i])
        && bufs[b] == old(bufs[b]).(dev := dev, blockno := blockno, valid := false, dirty := false, refcnt := 1)
      ensures b < nbuf && dev == DEV ==> bufs[..] == old(bufs[..])[b := BgetBuf(old(bufs[b]), blockno)]
      ensures b == nbuf <==> forall i :: 0 <= i < nbuf ==>
        !Matches(old(bufs[i]), dev, blockno) && (old(bufs[i]).refcnt > 0 || old(bufs[i]).dirty)
    {
      b := FindCached(dev, blockno);
      if b < nbuf {
        bufs[b] := bufs[b].(refcnt := bufs[b].refcnt + 1);
        return;
      }
      b := FindVictim();
      if b < nbuf {
        bufs[b] := bufs[b].(dev := dev, blockno := blockno, valid := false, dirty := false, refcnt := 1);
      }
    }

    // Unlink b and insert it after head.
    method MoveToFront(b: nat) returns (ghost k: nat)
      requires next != prev && Links(nbuf, order, next[..], prev[..]) && b in order
      modifies next, prev, this`order
      ensures Links(nbuf, order, next[..], prev[..])
      ensures k < |old(order)| && old(order)[k] == b && order == ToFront(old(order), k)
    {
      k :| 0 <= k < |order| && order[k] == b;
      Unlink(b, k);
      PushFront(b);
    }

    /** brelse: drop the sleep-lock and the reference; the last reference moves the buffer to the
        front of the ring, as the most recently released one. */
    method Brelse(b: nat, me: nat) returns (panics: bool)
      requires Valid() && b < nbuf && bufs[b].refcnt > 0
      modifies this, bufs, next, prev
      ensures Valid() && (panics <==> old(bufs[b]).lock != Some(me))
      ensures forall i :: 0 <= i < nbuf && (i != b || panics) ==> bufs[i] == old(bufs[i])
      ensures !panics ==> bufs[b] == old(bufs[b]).(lock := None, refcnt := old(bufs[b]).refcnt - 1)
      ensures forall i :: 0 <= i < nbuf && i != b ==> released[i] == old(released)[i]
      ensures if !panics && old(bufs[b]).refcnt == 1
        then order[0] == b && forall i :: 0 <= i < nbuf && i != b ==> released[i] < released[b]
        else order == old(order) && released == old(released)
    {
      panics := bufs[b].lock != Some(me);
      if panics { return; }
      bufs[b] := bufs[b].(lock := None, refcnt := bufs[b].refcnt - 1);
      if bufs[b].refcnt == 0 {
        assert b in order;
        ghost var k := MoveToFront(b);
        clock := clock + 1;
        released := released[b := clock];
        ToFrontMembers(old(order), k);
        ToFrontRecency(old(order), k, clock, old(released));
      }
    }
  }

  // When the i-th buffer of the list was released.
  ghost function When(order: seq<nat>, released: seq<nat>, i: nat): int {
    if i < |order| && order[i] < |released| then released[order[i]] else 0
  }

  // The list runs from the most recently released buffer to the least.
  ghost predicate Recency(order: seq<nat>, released: seq<nat>) {
    forall i: nat, j: nat :: i < j < |order| ==> When(order, released, i) >= When(order, released, j)
  }

  lemma ToFrontMembers(order: seq<nat>, k: nat)
    requires k < |order|
    ensures |ToFront(order, k)| == |order|
    ensures forall x :: x in order <==> x in ToFront(order, k)
  {
    assert order == order[..k] + [order[k]] + order[k + 1..];
  }

  // The list stays sorted by the time of release when its newest member moves to the front.
  lemma ToFrontRecency(order: seq<nat>, k: nat, clock: nat, released: seq<nat>)
    requires k < |order| == |released| && NoRepeats(order) && Recency(order, released)
    requires forall i :: 0 <= i < |order| ==> order[i] < |order|
    requires forall i :: 0 <= i < |order| ==> released[i] < clock
    ensures Recency(ToFront(order, k), released[order[k] := clock])
  {
    var r, o := released[order[k] := clock], ToFront(order, k);
    forall i: nat, j: nat | i < j < |order| ensures When(o, r, i) >= When(o, r, j) {
      var m := if j <= k then j - 1 else j;
      assert o[j] == order[m] && When(o, r, j) == When(order, released, m);
      if i > 0 {
        var l := if i <= k then i - 1 else i;
        assert o[i] == order[l] && When(o, r, i) == When(order, released, l);
      }
    }
  }
}
