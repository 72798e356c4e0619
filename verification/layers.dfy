/** One caching layer: a set of memory windows laid over a slower memory.

    The allocator has two of these on top of each other.  Big pages on the free list are
    windows over the backing pool, and locked pages are windows over the result.  What
    both share is stated and proved here once, for windows named by any key type. */
module Layers {

  type byte = x: int | 0 <= x < 256

  /** A window: the bytes `data`, held for the addresses from `start` on.  A window may
      stick out past the end of the memory; the bytes out there mean nothing. */
  datatype Window = Window(start: nat, data: seq<byte>, dirty: bool) {
    predicate Covers(a: int) { start <= a < start + |data| }
  }

  predicate Apart(v: Window, w: Window) {
    v.start + |v.data| <= w.start || w.start + |w.data| <= v.start
  }

  /** The bytes of `w` are the bytes of `m` at the same addresses. */
  ghost predicate Agrees(w: Window, m: seq<byte>) {
    forall k :: 0 <= k < |w.data| && w.start + k < |m| ==> w.data[k] == m[w.start + k]
  }

  ghost predicate Disjoint<K(!new)>(layer: map<K, Window>) {
    forall i, j :: i in layer && j in layer && i != j ==> Apart(layer[i], layer[j])
  }

  lemma ApartUnlessSame<K(!new)>(layer: map<K, Window>, i: K, j: K)
    requires Disjoint(layer) && i in layer && j in layer
    ensures i == j || Apart(layer[i], layer[j])
  {
  }

  ghost predicate AllAgree<K(!new)>(layer: map<K, Window>, over: seq<byte>) {
    forall i :: i in layer ==> Agrees(layer[i], over)
  }

  ghost predicate DirtyAt<K(!new)>(layer: map<K, Window>, a: int) {
    exists i :: i in layer && layer[i].dirty && layer[i].Covers(a)
  }

  /** Only a dirty window may hide a difference from the memory below. */
  ghost predicate Explained<K(!new)>(layer: map<K, Window>, under: seq<byte>, over: seq<byte>) {
    |under| == |over| && forall a :: 0 <= a < |under| ==> under[a] == over[a] || DirtyAt(layer, a)
  }

  /** `over` is what one sees looking through the windows of `layer` at `under`. */
  ghost predicate LayerOk<K(!new)>(layer: map<K, Window>, under: seq<byte>, over: seq<byte>) {
    Disjoint(layer) && AllAgree(layer, over) && Explained(layer, under, over)
  }

  /** `after` is `before` with the bytes `d` stored from address `p` on; what would fall
      past the end is dropped. */
  ghost predicate Stored(before: seq<byte>, p: nat, d: seq<byte>, after: seq<byte>) {
    |after| == |before| && forall a :: 0 <= a < |before| ==> after[a] == if p <= a < p + |d| then d[a - p] else before[a]
  }

  ghost function Put(before: seq<byte>, p: nat, d: seq<byte>): (after: seq<byte>)
    ensures Stored(before, p, d, after)
  {
    seq(|before|, a requires 0 <= a < |before| => if p <= a < p + |d| then d[a - p] else before[a])
  }

  /** No window of the layer holds any address of [p, p + n). */
  ghost predicate Uncovered<K(!new)>(layer: map<K, Window>, p: int, n: int) {
    forall i :: i in layer ==> p + n <= layer[i].start || layer[i].start + |layer[i].data| <= p
  }

  function Clean(w: Window): Window { w.(dirty := false) }
  function Dirty(w: Window): Window { w.(dirty := true) }

  // --- what a layer shows is a function of what it is ---

  /** Where a window covers an address it shows its own byte, elsewhere the one below. */
  lemma SeenThrough<K(!new)>(layer: map<K, Window>, under: seq<byte>, over: seq<byte>, a: nat)
    requires LayerOk(layer, under, over) && a < |over|
    ensures forall i :: i in layer && layer[i].Covers(a) ==> over[a] == layer[i].data[a - layer[i].start]
    ensures (forall i :: i in layer ==> !layer[i].Covers(a)) ==> over[a] == under[a]
  {
    forall i | i in layer && layer[i].Covers(a)
      ensures over[a] == layer[i].data[a - layer[i].start]
    {
      assert Agrees(layer[i], over);
    }
  }

  /** So the layer and the memory below leave no choice about the memory above. */
  lemma ViewIsUnique<K(!new)>(layer: map<K, Window>, under: seq<byte>, one: seq<byte>, two: seq<byte>)
    requires LayerOk(layer, under, one) && LayerOk(layer, under, two)
    ensures one == two
  {
    forall a | 0 <= a < |one|
      ensures one[a] == two[a]
    {
      SeenThrough(layer, under, one, a);
      SeenThrough(layer, under, two, a);
    }
  }

  /** Where no window reaches, the memory below shows. */
  lemma UncoveredShowsBelow<K(!new)>(layer: map<K, Window>, under: seq<byte>, over: seq<byte>, p: nat, n: nat)
    requires LayerOk(layer, under, over) && Uncovered(layer, p, n)
    ensures forall a :: p <= a < p + n && a < |over| ==> under[a] == over[a]
  {
  }

  // --- what may be done to a layer ---

  lemma ReplaceExplained<K(!new)>(layer: map<K, Window>, under: seq<byte>, over: seq<byte>, i: K, w: Window)
    requires Explained(layer, under, over)
    requires i in layer ==> forall a :: 0 <= a < |under| && layer[i].dirty && layer[i].Covers(a) ==>
      under[a] == over[a] || (w.dirty && w.Covers(a))
    ensures Explained(layer[i := w], under, over)
  {
    var layer' := layer[i := w];
    forall a | 0 <= a < |under|
      ensures under[a] == over[a] || DirtyAt(layer', a)
    {
      if under[a] != over[a] {
        var j :| j in layer && layer[j].dirty && layer[j].Covers(a);
        assert j != i ==> layer'[j] == layer[j];
        assert layer'[i] == w;
      }
    }
  }

  /** Adding a window, or replacing one: the new one must fit beside the others, show the
      right bytes, and still account for what a replaced dirty window was hiding. */
  lemma Replace<K(!new)>(layer: map<K, Window>, under: seq<byte>, over: seq<byte>, i: K, w: Window)
    requires LayerOk(layer, under, over)
    requires forall j :: j in layer && j != i ==> Apart(w, layer[j])
    requires Agrees(w, over)
    requires i in layer ==> forall a :: 0 <= a < |under| && layer[i].dirty && layer[i].Covers(a) ==>
      under[a] == over[a] || (w.dirty && w.Covers(a))
    ensures LayerOk(layer[i := w], under, over)
  {
    ReplaceExplained(layer, under, over, i, w);
    var layer' := layer[i := w];
    assert Disjoint(layer') && AllAgree(layer', over);
  }

  /** A clean window can be dropped unseen. */
  lemma Drop<K(!new)>(layer: map<K, Window>, under: seq<byte>, over: seq<byte>, i: K)
    requires LayerOk(layer, under, over)
    requires i in layer
    requires forall a :: 0 <= a < |under| && layer[i].dirty && layer[i].Covers(a) ==> under[a] == over[a]
    ensures LayerOk(layer - {i}, under, over)
  {
    var layer' := layer - {i};
    assert Explained(layer', under, over) by {
      forall a | 0 <= a < |under|
        ensures under[a] == over[a] || DirtyAt(layer', a)
      {
        if under[a] != over[a] {
          var j :| j in layer && layer[j].dirty && layer[j].Covers(a);
          assert layer'[j] == layer[j];
        }
      }
    }
    assert Disjoint(layer') && AllAgree(layer', over);
  }

  lemma StoreInsideAgrees<K(!new)>(layer: map<K, Window>, over: seq<byte>, i: K, off: nat, d: seq<byte>, data': seq<byte>, over': seq<byte>)
    requires Disjoint(layer) && AllAgree(layer, over)
    requires i in layer && off + |d| <= |layer[i].data|
    requires Stored(layer[i].data, off, d, data')
    requires Stored(over, layer[i].start + off, d, over')
    ensures AllAgree(layer[i := Window(layer[i].start, data', true)], over')
  {
    var layer' := layer[i := Window(layer[i].start, data', true)];
    forall j | j in layer'
      ensures Agrees(layer'[j], over')
    {
      assert Agrees(layer[j], over);
      ApartUnlessSame(layer, i, j);
    }
  }

  lemma StoreInsideExplained<K(!new)>(layer: map<K, Window>, under: seq<byte>, over: seq<byte>, i: K, off: nat, d: seq<byte>, data': seq<byte>, over': seq<byte>)
    requires Explained(layer, under, over)
    requires i in layer && off + |d| <= |layer[i].data|
    requires |data'| == |layer[i].data|
    requires Stored(over, layer[i].start + off, d, over')
    ensures Explained(layer[i := Window(layer[i].start, data', true)], under, over')
  {
    var layer' := layer[i := Window(layer[i].start, data', true)];
    forall a | 0 <= a < |under|
      ensures under[a] == over'[a] || DirtyAt(layer', a)
    {
      assert layer'[i].dirty && (layer[i].Covers(a) ==> layer'[i].Covers(a));
      if !layer'[i].Covers(a) && under[a] != over[a] {
        var j :| j in layer && layer[j].dirty && layer[j].Covers(a);
        assert layer'[j] == layer[j];
      }
    }
  }

  /** Storing into one window, and marking it dirty, stores into the memory above and
      leaves the one below alone. */
  lemma StoreInside<K(!new)>(layer: map<K, Window>, under: seq<byte>, over: seq<byte>, i: K, off: nat, d: seq<byte>, data': seq<byte>, over': seq<byte>)
    requires LayerOk(layer, under, over)
    requires i in layer && off + |d| <= |layer[i].data|
    requires Stored(layer[i].data, off, d, data')
    requires Stored(over, layer[i].start + off, d, over')
    ensures LayerOk(layer[i := Window(layer[i].start, data', true)], under, over')
  {
    StoreInsideAgrees(layer, over, i, off, d, data', over');
    StoreInsideExplained(layer, under, over, i, off, d, data', over');
    assert Disjoint(layer[i := Window(layer[i].start, data', true)]);
  }

  /** Storing into the memory below where no window covers it stores into the one above. */
  lemma StoreBelow<K(!new)>(layer: map<K, Window>, under: seq<byte>, over: seq<byte>, p: nat, d: seq<byte>, under': seq<byte>, over': seq<byte>)
    requires LayerOk(layer, under, over)
    requires Uncovered(layer, p, |d|)
    requires Stored(under, p, d, under') && Stored(over, p, d, over')
    ensures LayerOk(layer, under', over')
  {
    assert AllAgree(layer, over') by {
      forall i | i in layer
        ensures Agrees(layer[i], over')
      {
        assert Agrees(layer[i], over);
      }
    }
    assert Explained(layer, under', over');
  }

  /** The memory below may take on bytes of the memory above anywhere, and any bytes at
      all under dirty windows. */
  lemma ChangeBelow<K(!new)>(layer: map<K, Window>, under: seq<byte>, over: seq<byte>, under': seq<byte>)
    requires LayerOk(layer, under, over)
    requires |under'| == |under|
    requires forall a :: 0 <= a < |under| ==> under'[a] == under[a] || under'[a] == over[a] || DirtyAt(layer, a)
    ensures LayerOk(layer, under', over)
  {
    assert Explained(layer, under', over);
  }

  /** Writing a window back makes it clean and changes nothing seen from above. */
  lemma WriteBack<K(!new)>(layer: map<K, Window>, under: seq<byte>, over: seq<byte>, i: K, under': seq<byte>)
    requires LayerOk(layer, under, over)
    requires i in layer && Stored(under, layer[i].start, layer[i].data, under')
    ensures LayerOk(layer[i := Clean(layer[i])], under', over)
  {
    SaveDown(layer, under, over, i, under');
    Replace(layer, under', over, i, Clean(layer[i]));
  }

  /** Storing below everywhere and having stored in every window that covers part of the
      range already amounts to storing above. */
  lemma FinishStore<K(!new)>(layer: map<K, Window>, under: seq<byte>, over: seq<byte>, p: nat, d: seq<byte>, under': seq<byte>, over': seq<byte>)
    requires LayerOk(layer, under, over)
    requires Stored(under, p, d, under') && Stored(over, p, d, over')
    requires forall i, a :: i in layer && layer[i].Covers(a) && p <= a < p + |d| && a < |over| ==> over[a] == d[a - p]
    ensures LayerOk(layer, under', over')
  {
    assert AllAgree(layer, over') by {
      forall i | i in layer
        ensures Agrees(layer[i], over')
      {
        assert Agrees(layer[i], over);
        forall k | 0 <= k < |layer[i].data| && layer[i].start + k < |over'|
          ensures layer[i].data[k] == over'[layer[i].start + k]
        {
          assert layer[i].Covers(layer[i].start + k);
        }
      }
    }
    assert Explained(layer, under', over');
  }

  /** A window may be moved, once clean, to where no other window is, taking the bytes below. */
  lemma Reload<K(!new)>(layer: map<K, Window>, under: seq<byte>, over: seq<byte>, i: K, w: Window)
    requires LayerOk(layer, under, over)
    requires i in layer ==> !layer[i].dirty
    requires forall j :: j in layer && j != i ==> Apart(w, layer[j])
    requires Agrees(w, under)
    ensures LayerOk(layer[i := w], under, over)
  {
    var others := layer - {i};
    if i in layer {
      Drop(layer, under, over, i);
    } else {
      assert others == layer;
    }
    UncoveredShowsBelow(others, under, over, w.start, |w.data|);
    Replace(others, under, over, i, w);
    assert layer[i := w] == others[i := w];
  }

  lemma MarkDirty<K(!new)>(layer: map<K, Window>, under: seq<byte>, over: seq<byte>, i: K)
    requires LayerOk(layer, under, over) && i in layer
    ensures LayerOk(layer[i := Dirty(layer[i])], under, over)
  {
    Replace(layer, under, over, i, Dirty(layer[i]));
  }

  /** Taking a window away shows the memory below in its place. */
  lemma Detach<K(!new)>(layer: map<K, Window>, under: seq<byte>, over: seq<byte>, i: K, over': seq<byte>)
    requires LayerOk(layer, under, over)
    requires i in layer && |over'| == |over|
    requires forall a :: 0 <= a < |over| ==> over'[a] == if layer[i].Covers(a) then under[a] else over[a]
    ensures LayerOk(layer - {i}, under, over')
  {
    var rest := layer - {i};
    assert AllAgree(rest, over') by {
      forall j | j in rest
        ensures Agrees(rest[j], over')
      {
        assert Agrees(layer[j], over) && Apart(layer[i], layer[j]);
      }
    }
    assert Explained(rest, under, over') by {
      forall a | 0 <= a < |under|
        ensures under[a] == over'[a] || DirtyAt(rest, a)
      {
        if under[a] != over'[a] {
          var j :| j in layer && layer[j].dirty && layer[j].Covers(a);
          assert rest[j] == layer[j];
        }
      }
    }
    assert Disjoint(rest);
  }

  ghost function Uncover(over: seq<byte>, w: Window, under: seq<byte>): (r: seq<byte>)
    requires |under| == |over|
    ensures |r| == |over| && forall a :: 0 <= a < |over| ==> r[a] == if w.Covers(a) then under[a] else over[a]
  {
    seq(|over|, a requires 0 <= a < |over| => if w.Covers(a) then under[a] else over[a])
  }

  /** Saving a window's bytes below makes the two memories the same under it. */
  lemma SaveDown<K(!new)>(layer: map<K, Window>, under: seq<byte>, over: seq<byte>, i: K, under': seq<byte>)
    requires LayerOk(layer, under, over)
    requires i in layer && Stored(under, layer[i].start, layer[i].data, under')
    ensures LayerOk(layer, under', over)
    ensures forall a :: 0 <= a < |under| && layer[i].Covers(a) ==> under'[a] == over[a]
  {
    forall a | 0 <= a < |under| && layer[i].Covers(a)
      ensures under'[a] == over[a]
    {
      SeenThrough(layer, under, over, a);
    }
    ChangeBelow(layer, under, over, under');
  }

  /** Under a clean window the two memories are the same. */
  lemma CleanShowsBelow<K(!new)>(layer: map<K, Window>, under: seq<byte>, over: seq<byte>, i: K)
    requires LayerOk(layer, under, over)
    requires i in layer && !layer[i].dirty
    ensures forall a :: 0 <= a < |under| && layer[i].Covers(a) ==> under[a] == over[a]
  {
  }

  /** Putting a window where no other is shows its bytes. */
  lemma Attach<K(!new)>(layer: map<K, Window>, under: seq<byte>, over: seq<byte>, i: K, w: Window, over': seq<byte>)
    requires LayerOk(layer, under, over)
    requires i !in layer && forall j :: j in layer ==> Apart(w, layer[j])
    requires Stored(over, w.start, w.data, over')
    requires w.dirty || Agrees(w, over)
    ensures LayerOk(layer[i := w], under, over')
  {
    var layer' := layer[i := w];
    assert AllAgree(layer', over') by {
      forall j | j in layer'
        ensures Agrees(layer'[j], over')
      {
        assert j != i ==> Agrees(layer[j], over) && Apart(w, layer[j]);
      }
    }
    assert Explained(layer', under, over') by {
      forall a | 0 <= a < |under|
        ensures under[a] == over'[a] || DirtyAt(layer', a)
      {
        assert layer'[i] == w;
        if under[a] != over[a] {
          var j :| j in layer && layer[j].dirty && layer[j].Covers(a);
          assert layer'[j] == layer[j];
        } else if w.Covers(a) && !w.dirty {
          assert w.data[a - w.start] == over[a];
        }
      }
    }
    assert Disjoint(layer');
  }

  /** Once every window is clean, the memory below is the memory above. */
  lemma AllCleanShowsBelow<K(!new)>(layer: map<K, Window>, under: seq<byte>, over: seq<byte>)
    requires LayerOk(layer, under, over)
    requires forall i :: i in layer ==> !layer[i].dirty
    ensures under == over
  {
  }

  /** Where the windows that reach into [p, p + n) show what is below, so does all of it. */
  lemma AllSavedShowsBelow<K(!new)>(layer: map<K, Window>, under: seq<byte>, over: seq<byte>, p: nat, n: nat)
    requires LayerOk(layer, under, over)
    requires forall i, a :: i in layer && layer[i].Covers(a) && p <= a < p + n && a < |over| ==> under[a] == over[a]
    ensures forall a :: p <= a < p + n && a < |over| ==> under[a] == over[a]
  {
    forall a | p <= a < p + n && a < |over|
      ensures under[a] == over[a]
    {
      SeenThrough(layer, under, over, a);
    }
  }

  /** A layer without windows shows the memory below. */
  lemma NoWindows<K(!new)>(layer: map<K, Window>, m: seq<byte>)
    requires layer == map[]
    ensures LayerOk(layer, m, m)
  {
  }

  // --- storing piece by piece ---

  /** `after` is `before` with the bytes `d`, meant for address `p`, already stored
      everywhere but in [q, q + left). */
  ghost predicate StoredBut(before: seq<byte>, p: nat, d: seq<byte>, q: int, left: int, after: seq<byte>) {
    && |after| == |before|
    && forall a :: 0 <= a < |before| ==>
         after[a] == if p <= a < p + |d| && !(q <= a < q + left) then d[a - p] else before[a]
  }

  lemma StoreNoneAndAll(before: seq<byte>, p: nat, d: seq<byte>, q: nat, after: seq<byte>)
    ensures StoredBut(before, p, d, p, |d|, before)
    ensures StoredBut(before, p, d, q, 0, after) ==> Stored(before, p, d, after)
  {
  }

  /** Storing a front or back part of what is left. */
  lemma StoreMore(before: seq<byte>, p: nat, d: seq<byte>, q: nat, left: nat, mid: seq<byte>,
                  from: nat, n: nat, after: seq<byte>)
    requires StoredBut(before, p, d, q, left, mid)
    requires p <= q && q + left <= p + |d|
    requires q <= from && from + n <= q + left && (from == q || from + n == q + left)
    requires Stored(mid, from, d[from - p..from - p + n], after)
    ensures from == q ==> StoredBut(before, p, d, q + n, left - n, after)
    ensures from + n == q + left ==> StoredBut(before, p, d, q, left - n, after)
  {
  }
}
