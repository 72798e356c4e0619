/** Where the code needs its callers' care: what goes wrong otherwise, and exactly when. */
module Limits {
  import opened Layers
  import opened PageState
  import opened BaseAlloc
  import opened HeapState

  // --- giving back a big page that was locked whole (freeLockedPage) ---

  /** Some memory of `n` bytes is what all the windows show. */
  ghost predicate Shown<K(!new)>(layer: map<K, Window>, n: nat) {
    exists m: seq<byte> :: |m| == n && AllAgree(layer, m)
  }

  /** Windows on the same address must have the same byte there: once another is stored
      through one of them, no memory is what they show. */
  lemma OneHidesOther<K(!new)>(layer: map<K, Window>, n: nat, i: K, j: K, a: nat)
    requires i in layer && j in layer && layer[i].Covers(a) && layer[j].Covers(a) && a < n
    ensures Shown(layer, n) ==> layer[i].data[a - layer[i].start] == layer[j].data[a - layer[j].start]
  {
    if Shown(layer, n) {
      var m: seq<byte> :| |m| == n && AllAgree(layer, m);
      assert Agrees(layer[i], m) && Agrees(layer[j], m);
      assert m[a] == m[layer[i].start + (a - layer[i].start)] == m[layer[j].start + (a - layer[j].start)];
    }
  }

  ghost predicate AnyShown(cached: map<int, Window>, i: int, p: nat, size: nat, n: nat) {
    forall d: seq<byte> :: |d| == size ==> Shown(cached[i := Window(p, d, true)], n)
  }

  /** A big page held whole may join the free list, whatever is stored in it, exactly when it
      does not overlap a free page: nothing is done about overlaps there. */
  lemma WholePageJoins(x: Pid, held: map<Pid, Window>, cached: map<int, Window>, store: seq<byte>, base: seq<byte>, size: nat)
    requires LayerOk(cached, store, base) && size > 0
    requires forall j :: j in cached ==> |cached[j].data| == size && cached[j].start < |base|
    requires x in held && x.c == BIG && x.i !in cached && |held[x].data| == size && held[x].start < |base|
    ensures ClearAt(x, held, cached, size) <==> AnyShown(cached, x.i, held[x].start, size, |base|)
  {
    hide LayerOk, Shown;
    var p := held[x].start;
    if ClearAt(x, held, cached, size) {
      forall d: seq<byte> | |d| == size
        ensures Shown(cached[x.i := Window(p, d, true)], |base|)
      {
        var w := Window(p, d, true);
        forall j | j in cached
          ensures Apart(w, cached[j])
        {
          assert cached[j].start + size <= p || p + size <= cached[j].start;
        }
        Attach(cached, store, base, x.i, w, Put(base, p, d));
        IsShown(cached[x.i := w], store, Put(base, p, d));
      }
    } else {
      var j :| j in cached && !(cached[j].start + size <= p || p + size <= cached[j].start);
      var d := HiddenIn(cached, x.i, j, p, size, |base|);
      assert !Shown(cached[x.i := Window(p, d, true)], |base|);
    }
  }

  lemma IsShown<K(!new)>(layer: map<K, Window>, under: seq<byte>, over: seq<byte>)
    requires LayerOk(layer, under, over)
    ensures Shown(layer, |over|)
  {
  }

  /** Bytes to store in a page at `p` that then no memory shows. */
  lemma HiddenIn(cached: map<int, Window>, i: int, j: int, p: nat, size: nat, n: nat) returns (d: seq<byte>)
    requires i !in cached && j in cached && |cached[j].data| == size && cached[j].start < n && p < n
    requires cached[j].start < p + size && p < cached[j].start + size
    ensures |d| == size && !Shown(cached[i := Window(p, d, true)], n)
  {
    var a := if p < cached[j].start then cached[j].start else p;
    var b := cached[j].data[a - cached[j].start];
    d := seq(size, k => if b == 0 then 1 else 0);
    OneHidesOther(cached[i := Window(p, d, true)], n, i, j, a);
  }

  /** A run that goes wrong, on any pool and for any sizes of pages: a big page is locked whole
      at `p`, two bytes are read from `p - 1` on, another byte is stored at `p` through the lock,
      and the lock is given back.  The next read of those two bytes looks for a free page that
      holds them, and finds the one the first read left behind, with the byte from before. */
  method StaleRead(pool: array<byte>, smallCount: nat, smallSize: nat, mediumCount: nat, mediumSize: nat, bigCount: nat, bigSize: nat, p: nat)
    returns (vm: BaseVAlloc, d: byte, i: int, offset: nat)
    requires 16 <= smallSize <= mediumSize < bigSize < 0x1_0000
    requires 1 <= smallCount <= 127 && 1 <= mediumCount <= 127 && 2 <= bigCount <= 127
    requires pool.Length + bigSize <= 0x1_0000_0000 && 2 <= p && p + bigSize <= pool.Length
    modifies pool
    ensures d != old(pool[p]) && vm.mem == old(pool[..])[p := d]
    ensures vm.UpperOk() && !vm.Valid()
    ensures InPage(vm, i, offset, p - 1, 2) && forall j :: j in vm.cached && Fits(vm.cached[j], p - 1, 2, false) ==> j == i
    ensures vm.bigPool[i, offset + 1] == old(pool[p])
  {
    hide BaseVAlloc.Valid, BaseVAlloc.Config, BaseVAlloc.Counted, BaseVAlloc.UpperOk, Fits, Stored;
    vm := new BaseVAlloc(pool, smallCount, smallSize, mediumCount, mediumSize, bigCount, bigSize);
    vm.Start();
    ghost var m := vm.mem;
    var x := TakeWhole(vm, p);
    var at;
    at, offset := ReadAround(vm, x, p);
    d := if vm.bigPool[at, offset + 1] == 0 then 1 else 0;
    vm.StoreLocked(x, 0, [d]);
    OneStored(m, p, d, vm.mem);
    InPageAgain(vm, at, offset, p - 1, 2);
    i := LetGo(vm, x, p, at, offset);
  }

  lemma OneStored(m: seq<byte>, p: nat, d: byte, m': seq<byte>)
    requires Stored(m, p, [d], m') && p < |m|
    ensures m' == m[p := d]
  {
  }

  /** Page `i` is free and holds [p, p + n), from its byte `offset` on. */
  ghost predicate InPage(vm: BaseVAlloc, i: int, offset: nat, p: nat, n: nat)
    reads vm, vm.bigPool
  {
    && i in vm.cached && vm.cached[i].start + offset == p && offset + n <= |vm.cached[i].data|
    && 0 <= i < vm.bigPool.Length0 && offset + n <= vm.bigPool.Length1
    && forall k :: offset <= k < offset + n ==> vm.bigPool[i, k] == vm.cached[i].data[k]
  }

  /** Page `x` is the one page held, a big one, with one lock, from `p` on. */
  ghost predicate OnlyWhole(vm: BaseVAlloc, x: Pid, p: nat)
    reads vm, vm.bigPool
  {
    && vm.held.Keys == {x} && x.c == BIG && vm.held[x].start == p && |vm.held[x].data| == vm.bigPool.Length1 && vm.held[x].dirty
    && x in vm.counts && vm.counts[x] == 1
  }

  method TakeWhole(vm: BaseVAlloc, p: nat) returns (x: Pid)
    requires vm.Valid() && vm.held == map[] && forall y :: vm.IsPage(y) ==> y in vm.counts && vm.counts[y] == 0
    requires vm.smallPool.Length1 < vm.bigPool.Length1 && vm.mediumPool.Length1 < vm.bigPool.Length1 && 2 <= vm.bigPool.Length0
    requires 2 <= p && p + vm.bigPool.Length1 <= vm.store.Length
    modifies vm`info, vm`nextPageToSwap, vm`free, vm`locked, vm`cached, vm`held, vm`counts, vm`base
    modifies vm.store, vm.smallPool, vm.mediumPool, vm.bigPool
    ensures vm.Valid() && OnlyWhole(vm, x, p) && vm.free.big != []
  {
    hide BaseVAlloc.Valid, BaseVAlloc.CacheOk, ClearAt, LayerOk, AllHeld, BigActive, LocksStay, NoNewWindows;
    vm.Parts();
    var size := vm.bigPool.Length1;
    var ok, y, at, n := vm.MakeFittingLock(p, size, false);
    x := y;
    vm.HeldCounted();
    vm.FreeIsUnlocked();
    assert vm.IsPage(Pid(BIG, 0)) && vm.IsPage(Pid(BIG, 1));
    assert Pid(BIG, if x == Pid(BIG, 0) then 1 else 0) in vm.counts;
  }

  method ReadAround(vm: BaseVAlloc, x: Pid, p: nat) returns (i: int, offset: nat)
    requires vm.Valid() && OnlyWhole(vm, x, p) && vm.free.big != [] && 2 <= p < vm.store.Length
    requires vm.bigPool.Length1 >= 2
    modifies vm`info, vm`cached, vm`nextPageToSwap, vm`base, vm.store, vm.bigPool
    ensures vm.Valid() && OnlyWhole(vm, x, p) && InPage(vm, i, offset, p - 1, 2)
    ensures p < |vm.mem| && vm.bigPool[i, offset + 1] == vm.mem[p]
  {
    hide BaseVAlloc.Valid, BaseVAlloc.CacheOk, LayerOk, AllHeld, BigActive;
    vm.Parts();
    var y, from := vm.Read(p - 1, 2);
    i, offset := y.i, from;
    assert Slice(vm.Pool(y.c), y.i, from, 2)[1] == vm.mem[p - 1..p + 1][1];
    InPageAgain(vm, i, offset, p - 1, 2);
  }

  /** The lock goes, and the page joins the cache beside the one that overlaps it. */
  method LetGo(vm: BaseVAlloc, x: Pid, p: nat, at: int, offset: nat) returns (i: int)
    requires vm.Valid() && OnlyWhole(vm, x, p) && InPage(vm, at, offset, p - 1, 2) && 2 <= p
    modifies vm`info, vm`nextPageToSwap, vm`free, vm`locked, vm`cached, vm`held, vm`counts, vm`base
    modifies vm.store, vm.bigPool
    ensures vm.UpperOk() && !vm.Valid()
    ensures i == at && InPage(vm, i, offset, p - 1, 2) && vm.bigPool[i, offset + 1] == old(vm.bigPool[at, offset + 1])
    ensures forall j :: j in vm.cached && Fits(vm.cached[j], p - 1, 2, false) ==> j == i
  {
    hide BaseVAlloc.Valid, BaseVAlloc.Coupled, BaseVAlloc.UpperOk, LayerOk, NoNewWindows;
    ghost var cached, w := vm.cached, vm.held[x];
    Overlap(vm, x, p, at, offset);
    ghost var z := vm.ReleaseLock(p);
    UpperCoupled(vm);
    assert vm.cached == cached[x.i := w];
    i := vm.FindFreePage(p - 1, 2, false);
    Rows(vm, at);
  }

  lemma Overlap(vm: BaseVAlloc, x: Pid, p: nat, at: int, offset: nat)
    requires vm.Valid() && OnlyWhole(vm, x, p) && InPage(vm, at, offset, p - 1, 2) && 2 <= p
    ensures vm.held[x].Covers(p) && !vm.MayRelease(x) && at != x.i
    ensures forall j :: j in vm.cached && Fits(vm.cached[j], p - 1, 2, false) ==> j == at
  {
    hide BaseVAlloc.Valid, BaseVAlloc.Coupled, AllHeld, BigActive;
    vm.Parts();
    Rows(vm, at);
    vm.HeldCounted();
    forall j | j in vm.cached && Fits(vm.cached[j], p - 1, 2, false)
      ensures j == at
    {
      ApartUnlessSame(vm.cached, j, at);
    }
    vm.Idle(at);
  }

  lemma UpperCoupled(vm: BaseVAlloc)
    requires vm.UpperOk()
    ensures vm.Coupled()
  {
    hide BaseVAlloc.Coupled, LayerOk;
  }

  lemma InPageAgain(vm: BaseVAlloc, i: int, offset: nat, p: nat, n: nat)
    requires vm.Valid() && i in vm.cached && vm.cached[i].start + offset == p && offset + n <= |vm.cached[i].data|
    ensures InPage(vm, i, offset, p, n)
  {
    hide BaseVAlloc.Valid, BaseVAlloc.Coupled, LayerOk, AllHeld, BigActive;
    vm.Parts();
    Rows(vm, i);
  }

  lemma Rows(vm: BaseVAlloc, i: int)
    requires vm.Coupled() && i in vm.cached
    ensures RowHas(vm.bigPool, i, vm.cached[i].data) && |vm.cached[i].data| == vm.bigPool.Length1
    ensures 0 <= i < vm.bigPool.Length0
  {
  }

  // --- a data lock inside a page already locked (makeDataLock) ---

  /** The page around `ptr` is cut short there, and a new page takes over [ptr, ptr + n). */
  function CutAround(w: Window, ptr: nat): Window
    requires w.start <= ptr <= w.start + |w.data|
  {
    w.(data := w.data[..ptr - w.start])
  }

  /** Exactly the bytes that then no dirty page holds must be below already: those past the
      new page, whose only copy is let go of, and all of them if the new page is clean. */
  lemma LockInsideLock<K(!new)>(held: map<K, Window>, base: seq<byte>, mem: seq<byte>, i: K, j: K, ptr: nat, n: nat, dirty: bool)
    requires LayerOk(held, base, mem) && i in held && j !in held && held[i].start < ptr && held[i].Covers(ptr)
    requires ptr + n <= |mem| && held[i].start + |held[i].data| <= |mem|
    requires forall k :: k in held && k != i ==> Apart(held[k], Window(ptr, mem[ptr..ptr + n], dirty))
    ensures var held' := held[i := CutAround(held[i], ptr)][j := Window(ptr, mem[ptr..ptr + n], dirty)];
            LayerOk(held', base, mem) <==>
              forall a :: held[i].Covers(a) && ptr <= a && (!dirty || ptr + n <= a) ==> base[a] == mem[a]
  {
    var old', new' := CutAround(held[i], ptr), Window(ptr, mem[ptr..ptr + n], dirty);
    var held' := held[i := old'][j := new'];
    assert held'[i] == old' && held'[j] == new';
    forall k | k in held' && k != i && k != j
      ensures k in held && held'[k] == held[k] && Apart(held[k], old') && Apart(held[k], new') && !(held[k].Covers(ptr))
    {
      ApartUnlessSame(held, i, k);
    }
    InsideDisjoint(held, held', i, j);
    InsideAgrees(held, held', mem, i, j, ptr);
    if forall a :: held[i].Covers(a) && ptr <= a && (!dirty || ptr + n <= a) ==> base[a] == mem[a] {
      forall a | 0 <= a < |base| && base[a] != mem[a]
        ensures DirtyAt(held', a)
      {
        var k :| k in held && held[k].dirty && held[k].Covers(a);
        if k == i {
          assert if a < ptr then held'[i].Covers(a) else held'[j].Covers(a);
        } else {
          assert held'[k] == held[k];
        }
      }
    }
    if LayerOk(held', base, mem) {
      forall a | held[i].Covers(a) && ptr <= a && (!dirty || ptr + n <= a)
        ensures base[a] == mem[a]
      {
        forall k | k in held'
          ensures !(held'[k].dirty && held'[k].Covers(a))
        {
          if k != i && k != j {
            ApartUnlessSame(held, i, k);
          }
        }
        assert !DirtyAt(held', a);
      }
    }
  }

  /** So it goes well, whatever is below, exactly when the page around was clean, or the new
      one is writable and reaches as far. */
  lemma LockInsideClean<K(!new)>(held: map<K, Window>, base: seq<byte>, mem: seq<byte>, i: K, j: K, ptr: nat, n: nat, dirty: bool)
    requires LayerOk(held, base, mem) && i in held && j !in held && held[i].start < ptr && held[i].Covers(ptr)
    requires ptr + n <= |mem| && held[i].start + |held[i].data| <= |mem|
    requires forall k :: k in held && k != i ==> Apart(held[k], Window(ptr, mem[ptr..ptr + n], dirty))
    ensures var held' := held[i := CutAround(held[i], ptr)][j := Window(ptr, mem[ptr..ptr + n], dirty)];
            (forall below: seq<byte> :: LayerOk(held, below, mem) ==> LayerOk(held', below, mem)) <==>
              !held[i].dirty || (dirty && held[i].start + |held[i].data| <= ptr + n)
  {
    var held' := held[i := CutAround(held[i], ptr)][j := Window(ptr, mem[ptr..ptr + n], dirty)];
    if !held[i].dirty || (dirty && held[i].start + |held[i].data| <= ptr + n) {
      forall below: seq<byte> | LayerOk(held, below, mem)
        ensures LayerOk(held', below, mem)
      {
        CleanIsBelow(held, below, mem, i);
        LockInsideLock(held, below, mem, i, j, ptr, n, dirty);
      }
    } else {
      var a := if dirty then ptr + n else ptr;
      var below := mem[a := if mem[a] == 0 then 1 else 0];
      assert DirtyAt(held, a);
      assert LayerOk(held, below, mem);
      LockInsideLock(held, below, mem, i, j, ptr, n, dirty);
      assert below[a] != mem[a];
    }
  }

  lemma CleanIsBelow<K(!new)>(held: map<K, Window>, base: seq<byte>, mem: seq<byte>, i: K)
    requires LayerOk(held, base, mem) && i in held
    ensures !held[i].dirty ==> forall a :: held[i].Covers(a) && a < |mem| ==> base[a] == mem[a]
  {
    if !held[i].dirty {
      forall a | held[i].Covers(a) && a < |mem|
        ensures base[a] == mem[a]
      {
        if base[a] != mem[a] {
          var k :| k in held && held[k].dirty && held[k].Covers(a);
          ApartUnlessSame(held, i, k);
        }
      }
    }
  }

  lemma InsideDisjoint<K(!new)>(held: map<K, Window>, held': map<K, Window>, i: K, j: K)
    requires Disjoint(held) && i != j && i in held' && j in held' && Apart(held'[i], held'[j])
    requires forall k :: k in held' && k != i && k != j ==> k in held && held'[k] == held[k] && Apart(held[k], held'[i]) && Apart(held[k], held'[j])
    ensures Disjoint(held')
  {
    forall k, l | k in held' && l in held' && k != l
      ensures Apart(held'[k], held'[l])
    {
      if k != i && k != j && l != i && l != j {
        ApartUnlessSame(held, k, l);
      }
    }
  }

  lemma InsideAgrees<K(!new)>(held: map<K, Window>, held': map<K, Window>, mem: seq<byte>, i: K, j: K, ptr: nat)
    requires AllAgree(held, mem) && i in held && i in held' && j in held' && held[i].start <= ptr <= held[i].start + |held[i].data|
    requires held'[i] == CutAround(held[i], ptr) && Agrees(held'[j], mem)
    requires forall k :: k in held' && k != i && k != j ==> k in held && held'[k] == held[k]
    ensures AllAgree(held', mem)
  {
    assert Agrees(held[i], mem);
    forall k | k in held'
      ensures Agrees(held'[k], mem)
    {
      assert k in held ==> Agrees(held[k], mem);
    }
  }

  /** Four bytes stored in a locked page, then a lock of two bytes inside it: the last byte is lost. */
  lemma TailLost()
    ensures var page := Window(1, [7, 7, 7, 7], true);
            var base, mem := [0, 0, 0, 0, 0], [0, 7, 7, 7, 7];
            LayerOk(map[0 := page], base, mem) &&
            !LayerOk(map[0 := CutAround(page, 2)][1 := Window(2, mem[2..4], true)], base, mem)
  {
    var page := Window(1, [7, 7, 7, 7], true);
    var base, mem := [0, 0, 0, 0, 0], [0, 7, 7, 7, 7];
    var held := map[0 := page];
    assert forall a :: 0 <= a < 5 && base[a] != mem[a] ==> held[0].Covers(a);
    assert LayerOk(held, base, mem);
    assert held[0].Covers(4) && base[4] != mem[4];
    LockInsideLock(held, base, mem, 0, 1, 2, 2, true);
  }

  // --- joining free neighbours (freeRaw) ---

  /** Two free blocks that touch stay two: the test for it compares an address plus a number
      of units with an address. */
  lemma NeighboursStayApart()
    ensures var blocks := map[FIRST := MIN_ALLOC_SIZE, FIRST + HEADER_SIZE * MIN_ALLOC_SIZE := MIN_ALLOC_SIZE];
            var end := FIRST + 2 * HEADER_SIZE * MIN_ALLOC_SIZE;
            Tiled(blocks, end) && End(blocks, FIRST) in blocks && FIRST + blocks[FIRST] != End(blocks, FIRST)
  {
    var one := FIRST + HEADER_SIZE * MIN_ALLOC_SIZE;
    EmptyTiled();
    TiledGrow(map[], FIRST, MIN_ALLOC_SIZE);
    TiledGrow(map[FIRST := MIN_ALLOC_SIZE], one, MIN_ALLOC_SIZE);
    assert map[][FIRST := MIN_ALLOC_SIZE] == map[FIRST := MIN_ALLOC_SIZE];
    assert map[FIRST := MIN_ALLOC_SIZE][one := MIN_ALLOC_SIZE] == map[FIRST := MIN_ALLOC_SIZE, one := MIN_ALLOC_SIZE];
  }
}
