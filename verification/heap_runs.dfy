/** Runs of the heap: whatever is allocated, freed, written, read and locked, in whatever order
    and whatever pages are swapped meanwhile, each object holds what its owner put there. */
module HeapRuns {
  import opened Layers
  import opened PageState
  import opened BaseAlloc
  import opened HeapState
  import opened Heap
  import opened VPtrUtils
  import MemoryRuns

  // --- objects ---

  datatype Op =
    | Alloc(size: nat)
    | Free(k: nat)                                       // object number k
    | Put(k: nat, off: nat, d: seq<byte>)
    | Get(k: nat, off: nat, n: nat)
    | Flush
    | ClearPages
    | MakeLock(k: nat, off: nat, want: nat, ro: bool)    // of part of object k
    | MakeDataLock(k: nat, off: nat, want: nat, ro: bool)
    | Store(j: nat, off: nat, d: seq<byte>)              // through lock number j
    | Fetch(j: nat, off: nat, n: nat)
    | Release(j: nat)

  datatype Out = Skipped | Ok | NoRoom | Refused | Bytes(d: seq<byte>) | Locked(size: nat)

  datatype Obj = Gone | Obj(bytes: seq<byte>)

  /** A lock of `size` bytes of object `k`, from its byte `off` on. */
  datatype Ref = Ref(k: nat, off: nat, size: nat, ro: bool, open: bool)

  datatype World = World(objs: seq<Obj>, refs: seq<Ref>) {
    /** Bytes [off, off + n) of object `k` are there. */
    predicate Has(k: nat, off: nat, n: nat) { k < |objs| && objs[k].Obj? && off + n <= |objs[k].bytes| }

    /** Lock `j` is open, and reaches over [off, off + n) of its bytes. */
    predicate Open(j: nat, off: nat, n: nat) {
      j < |refs| && refs[j].open && off + n <= refs[j].size && Has(refs[j].k, refs[j].off + off, n)
    }

    predicate Unlocked(k: nat) { forall j :: 0 <= j < |refs| && refs[j].open ==> refs[j].k != k }
  }

  /** Object `k` has the bytes `d` stored at `off`, and nothing else changes. */
  ghost predicate ObjStored(s: seq<Obj>, k: nat, off: nat, d: seq<byte>, s': seq<Obj>) {
    && k < |s| == |s'| && s[k].Obj? && s'[k].Obj? && Stored(s[k].bytes, off, d, s'[k].bytes)
    && forall i :: 0 <= i < |s| && i != k ==> s'[i] == s[i]
  }

  /** What an operation means for the objects; the bytes of a new one are not determined. */
  ghost predicate Means(w: World, op: Op, out: Out, w': World) {
    if out == Skipped then w' == w
    else if out == NoRoom then w' == w && op.Alloc?
    else if out == Refused then w' == w && (op.MakeLock? || op.MakeDataLock?)
    else match op
      case Alloc(size) => out == Ok && w'.refs == w.refs && exists b: seq<byte> :: |b| == size && w'.objs == w.objs + [Obj(b)]
      case Free(k) => out == Ok && w.Has(k, 0, 0) && w.Unlocked(k) && w' == w.(objs := w.objs[k := Gone])
      case Put(k, off, d) => out == Ok && w.Has(k, off, |d|) && w'.refs == w.refs && ObjStored(w.objs, k, off, d, w'.objs)
      case Get(k, off, n) => w' == w && w.Has(k, off, n) && out == Bytes(w.objs[k].bytes[off..off + n])
      case Flush => out == Ok && w' == w
      case ClearPages => out == Ok && w' == w
      case MakeLock(k, off, want, ro) =>
        && out.Locked? && 1 <= out.size <= want && w.Has(k, off, want)
        && w' == w.(refs := w.refs + [Ref(k, off, out.size, ro, true)])
      case MakeDataLock(k, off, want, ro) =>
        && out.Locked? && 1 <= out.size <= want && w.Has(k, off, want)
        && w' == w.(refs := w.refs + [Ref(k, off, out.size, ro, true)])
      case Store(j, off, d) =>
        && out == Ok && w.Open(j, off, |d|) && !w.refs[j].ro && w'.refs == w.refs
        && ObjStored(w.objs, w.refs[j].k, w.refs[j].off + off, d, w'.objs)
      case Fetch(j, off, n) =>
        && w' == w && w.Open(j, off, n)
        && out == Bytes(w.objs[w.refs[j].k].bytes[w.refs[j].off + off..w.refs[j].off + off + n])
      case Release(j) => out == Ok && w.Open(j, 0, 0) && w' == w.(refs := w.refs[j := w.refs[j].(open := false)])
  }

  // --- where objects are ---

  /** The owner of an object knows its address and its size; address 0 is none. */
  datatype Entry = Entry(ptr: nat, size: nat)

  /** An entry names a live block large enough. */
  ghost predicate Placed(e: Entry, blocks: map<nat, nat>, live: set<nat>) {
    && FIRST + HEADER_SIZE <= e.ptr && e.ptr - HEADER_SIZE in live && e.ptr - HEADER_SIZE in blocks
    && HEADER_SIZE + e.size <= HEADER_SIZE * blocks[e.ptr - HEADER_SIZE]
  }

  ghost predicate AllPlaced(table: seq<Entry>, blocks: map<nat, nat>, live: set<nat>) {
    && (forall k :: 0 <= k < |table| && table[k].ptr != 0 ==> Placed(table[k], blocks, live))
    && (forall j, k :: 0 <= j < k < |table| && table[j].ptr != 0 ==> table[j].ptr != table[k].ptr)
  }

  /** What memory holds for an entry. */
  ghost function ObjAt(m: seq<byte>, e: Entry): Obj {
    if e.ptr == 0 || e.ptr + e.size > |m| then Gone else Obj(m[e.ptr..e.ptr + e.size])
  }

  ghost function ObjsAt(m: seq<byte>, table: seq<Entry>): (r: seq<Obj>)
    ensures |r| == |table| && forall k :: 0 <= k < |table| ==> r[k] == ObjAt(m, table[k])
  {
    seq(|table|, k requires 0 <= k < |table| => ObjAt(m, table[k]))
  }

  /** An object in a block that stays, stays. */
  lemma ObjStays(m: seq<byte>, blocks: map<nat, nat>, live: set<nat>, m': seq<byte>, blocks': map<nat, nat>, e: Entry)
    requires Placed(e, blocks, live) && LiveKept(m, blocks, {e.ptr - HEADER_SIZE}, m', blocks')
    ensures ObjAt(m', e) == ObjAt(m, e)
  {
    var h := e.ptr - HEADER_SIZE;
    if e.ptr + e.size <= |m| {
      forall k | e.ptr <= k < e.ptr + e.size
        ensures m'[k] == m[k]
      {
        assert h in {h} && h <= k < End(blocks, h);
      }
    }
  }

  lemma KeptOne(m: seq<byte>, blocks: map<nat, nat>, live: set<nat>, m': seq<byte>, blocks': map<nat, nat>, a: nat)
    requires LiveKept(m, blocks, live, m', blocks') && a in live
    ensures LiveKept(m, blocks, {a}, m', blocks')
  {
  }

  lemma ObjsStay(m: seq<byte>, blocks: map<nat, nat>, live: set<nat>, m': seq<byte>, blocks': map<nat, nat>, table: seq<Entry>, k: nat)
    requires AllPlaced(table, blocks, live)
    requires forall j :: 0 <= j < |table| && j != k && table[j].ptr != 0 ==> LiveKept(m, blocks, {table[j].ptr - HEADER_SIZE}, m', blocks')
    ensures forall j :: 0 <= j < |table| && j != k ==> ObjAt(m', table[j]) == ObjAt(m, table[j])
  {
    hide LiveKept, Placed;
    forall j | 0 <= j < |table| && j != k && table[j].ptr != 0
      ensures ObjAt(m', table[j]) == ObjAt(m, table[j])
    {
      ObjStays(m, blocks, live, m', blocks', table[j]);
    }
  }

  /** Each open lock of the allocator is a lock of part of an object. */
  ghost predicate RefsOk(refs: seq<Ref>, grants: seq<MemoryRuns.Grant>, table: seq<Entry>) {
    && |refs| == |grants|
    && (forall j :: 0 <= j < |refs| ==> refs[j].open == grants[j].open && refs[j].size == grants[j].size && refs[j].ro == grants[j].ro)
    && (forall j :: 0 <= j < |refs| && refs[j].open ==>
          refs[j].k < |table| && table[refs[j].k].ptr != 0 && refs[j].off + refs[j].size <= table[refs[j].k].size
          && grants[j].p == table[refs[j].k].ptr + refs[j].off)
  }

  // --- runs ---

  /** A moment of a run: the objects, where they are, the blocks of the heap and where the search
      for a free one starts, and the locks. */
  datatype View = View(world: World, table: seq<Entry>, blocks: map<nat, nat>, live: set<nat>, end: nat, start: nat, memory: MemoryRuns.View)

  /** Blocks tile the heap, objects lie in blocks of their own, and locks in objects. */
  ghost predicate Sound(v: View) {
    && v.world.objs == ObjsAt(v.memory.flat.mem, v.table) && Tiled(v.blocks, v.end)
    && AllPlaced(v.table, v.blocks, v.live) && RefsOk(v.world.refs, v.memory.flat.grants, v.table) && MemoryRuns.Sound(v.memory)
  }

  /** What the owner of an object must see to. */
  ghost predicate AllowedIn(vm: BaseVAlloc, v: View, op: Op) {
    var w, s := v.world, v.memory.state;
    match op
    case Alloc(size) => size > 0 && NoWrap(v.end, Grow(Units(size)), vm.poolSize) && vm.BigUnlocked(s.counts)
    case Free(k) => w.Has(k, 0, 0) && w.Unlocked(k) && vm.BigUnlocked(s.counts)
    case Put(k, off, d) =>
      && w.Has(k, off, |d|) && 1 <= |d| <= vm.bigPool.Length1 && vm.BigUnlocked(s.counts)
      && k < |v.table| && vm.FitsIn(s.held, v.table[k].ptr + off, |d|)
    case Get(k, off, n) => w.Has(k, off, n) && 1 <= n <= vm.bigPool.Length1 && vm.BigUnlocked(s.counts)
    case Flush => true
    case ClearPages => true
    case MakeLock(k, off, want, ro) => w.Has(k, off, want) && k < |v.table| && MemoryRuns.AllowedIn(vm, v.memory, InMemory(op, v.table[k].ptr))
    case MakeDataLock(k, off, want, ro) => w.Has(k, off, want) && k < |v.table| && MemoryRuns.AllowedIn(vm, v.memory, InMemory(op, v.table[k].ptr))
    case Store(j, off, d) => w.Open(j, off, |d|) && !w.refs[j].ro
    case Fetch(j, off, n) => w.Open(j, off, n)
    case Release(j) => MemoryRuns.AllowedIn(vm, v.memory, MemoryRuns.Release(j))
  }

  /** The lock of memory that a lock of part of an object is. */
  function InMemory(op: Op, ptr: nat): MemoryRuns.Op
    requires op.MakeLock? || op.MakeDataLock?
  {
    if op.MakeLock? then MemoryRuns.MakeLock(ptr + op.off, op.want, op.ro) else MemoryRuns.MakeDataLock(ptr + op.off, op.want, op.ro)
  }

  /** Neither a free block nor the rest of the pool is large enough. */
  ghost predicate NoRoomIn(vm: BaseVAlloc, v: View, op: Op) {
    && op.Alloc? && !AvailableIn(v.blocks, v.live, Units(op.size))
    && (v.end + HEADER_SIZE * Units(op.size) > vm.poolSize || v.end + HEADER_SIZE * 16 > vm.poolSize)
  }

  /** The pages that the lock could be on are all locked. */
  ghost predicate RefusedIn(vm: BaseVAlloc, v: View, op: Op) {
    && (op.MakeLock? || op.MakeDataLock?) && op.k < |v.table|
    && MemoryRuns.RefusedIn(vm, v.memory.state.counts, InMemory(op, v.table[op.k].ptr))
  }

  /** The lock is the one of memory that has to be made. */
  ghost predicate LockedAs(vm: BaseVAlloc, v: View, op: Op, size: nat, memory: MemoryRuns.View) {
    && (op.MakeLock? || op.MakeDataLock?) && op.k < |v.table|
    && MemoryRuns.LockedAs(vm, v.memory, InMemory(op, v.table[op.k].ptr), size, memory)
  }

  /** Block `h` is taken off the first free one that has `q` units. */
  ghost predicate FromFirst(v: View, q: nat, h: nat, v': View) {
    exists p: nat :: Served(v.blocks, v.live, v.end, v.start, q, p, h, v'.blocks, v'.end, v'.start)
  }

  /** Blocks come and go with the objects in them.  A new one is the first that fits, and the
      heap grows only when it must. */
  ghost predicate BlocksMove(v: View, op: Op, out: Out, v': View) {
    if op.Alloc? && out == Ok then
      && |v'.table| == |v.table| + 1 && v'.table == v.table + [Entry(v'.table[|v.table|].ptr, op.size)]
      && v'.table[|v.table|].ptr >= HEADER_SIZE && v'.table[|v.table|].ptr - HEADER_SIZE !in v.live
      && v'.live == v.live + {v'.table[|v.table|].ptr - HEADER_SIZE}
      && FromFirst(v, Units(op.size), v'.table[|v.table|].ptr - HEADER_SIZE, v')
      && (v'.end == v.end ||
          (v'.end == v.end + HEADER_SIZE * (if Units(op.size) < 16 then 16 else Units(op.size)) && !AvailableIn(v.blocks, v.live, Units(op.size))))
    else if op.Free? && out == Ok then
      && op.k < |v.table| && v.table[op.k].ptr >= HEADER_SIZE && v'.table == v.table[op.k := Entry(0, 0)]
      && v'.live == v.live - {v.table[op.k].ptr - HEADER_SIZE} && v'.blocks == v.blocks && v'.end == v.end
      && IsNext(FreeSet(v'.blocks, v'.live), v'.start, v.table[op.k].ptr - HEADER_SIZE)
    else
      && v'.table == v.table && v'.live == v.live && v'.blocks == v.blocks && v'.end == v.end
      && v'.start == if out == NoRoom && v.start == 0 then BASE_INDEX else v.start
  }

  /** What every operation leaves as it was. */
  ghost predicate Kept(v: View, op: Op, out: Out, v': View) {
    && (out == Skipped ==> v' == v) && (out == Refused ==> v'.memory.state.counts == v.memory.state.counts)
    && v.memory.places <= v'.memory.places && MemoryRuns.LocksHold(v.memory.state, v'.memory.state)
    && MemoryRuns.NoneNewHeld(v.memory, v'.memory) && BlocksMove(v, op, out, v')
  }

  /** One operation does to the objects what it means.  It is skipped exactly when the owner may
      not ask for it, and finds no room exactly when there is none. */
  ghost predicate Steps(vm: BaseVAlloc, v: View, op: Op, out: Out, v': View) {
    && Means(v.world, op, out, v'.world)
    && (out == Skipped <==> !AllowedIn(vm, v, op))
    && (out == NoRoom <==> AllowedIn(vm, v, op) && NoRoomIn(vm, v, op))
    && (out == Refused ==> RefusedIn(vm, v, op)) && (out.Locked? ==> LockedAs(vm, v, op, out.size, v'.memory))
    && (op.Flush? ==> MemoryRuns.WrittenBack(MemoryRuns.Flush, v.memory, v'.memory))
    && (op.ClearPages? ==> MemoryRuns.WrittenBack(MemoryRuns.ClearPages, v.memory, v'.memory))
    && Kept(v, op, out, v') && Sound(v')
  }

  ghost predicate Explains(vm: BaseVAlloc, trace: seq<View>, ops: seq<Op>, outs: seq<Out>) {
    |trace| == |ops| + 1 && |outs| == |ops| && forall i :: 0 <= i < |ops| ==> Steps(vm, trace[i], ops[i], outs[i], trace[i + 1])
  }

  lemma OneMore(vm: BaseVAlloc, trace: seq<View>, ops: seq<Op>, i: nat, outs: seq<Out>, out: Out, v: View)
    requires i < |ops| && Explains(vm, trace, ops[..i], outs) && Steps(vm, trace[i], ops[i], out, v)
    ensures Explains(vm, trace + [v], ops[..i + 1], outs + [out])
  {
    hide Steps;
    forall j | 0 <= j < i + 1
      ensures Steps(vm, (trace + [v])[j], ops[..i + 1][j], (outs + [out])[j], (trace + [v])[j + 1])
    {
      if j < i {
        assert Steps(vm, trace[j], ops[..i][j], outs[j], trace[j + 1]);
      }
    }
  }

  lemma PlacesStay(vm: BaseVAlloc, v: View, op: Op, out: Out, v': View)
    requires Steps(vm, v, op, out, v')
    ensures v.memory.places <= v'.memory.places
  {
  }

  class Session {
    const heap: VHeap
    const locks: MemoryRuns.Session
    var table: seq<Entry>
    var refs: seq<Ref>

    ghost predicate Valid()
      reads this, heap, locks, heap.vm, heap.vm.store, heap.vm.smallPool, heap.vm.mediumPool, heap.vm.bigPool
    {
      PartsValid() && AllPlaced(table, heap.blocks, heap.live) && RefsOk(refs, locks.grants, table)
    }

    ghost function Objects(): World
      reads this, heap.vm`mem
    {
      World(ObjsAt(heap.vm.mem, table), refs)
    }

    /** Object `k` is there and has `off + n` bytes. */
    predicate Holds(k: nat, off: nat, n: nat)
      reads this`table
    {
      k < |table| && table[k].ptr != 0 && off + n <= table[k].size
    }

    predicate NotLocked(k: nat)
      reads this`refs
    {
      forall j :: 0 <= j < |refs| && refs[j].open ==> refs[j].k != k
    }

    /** This moment of the run. */
    ghost function Now(): View
      reads this, heap, locks, heap.vm`mem, locks.vm`mem, locks.vm`held, locks.vm`cached, locks.vm`counts, locks.vm.store
    {
      View(Objects(), table, heap.blocks, heap.live, heap.end, heap.freePointer, locks.Now())
    }

    ghost predicate Allowed(op: Op)
      reads this, heap, locks, heap.vm`mem, locks.vm`mem, locks.vm`held, locks.vm`cached, locks.vm`counts, locks.vm.store
    {
      AllowedIn(heap.vm, Now(), op)
    }

    constructor (heap: VHeap, locks: MemoryRuns.Session)
      requires heap.Valid() && locks.vm == heap.vm && locks.Valid() && locks.grants == []
      ensures this.heap == heap && this.locks == locks && Valid() && Objects() == World([], [])
    {
      hide VHeap.Valid, MemoryRuns.Session.Valid;
      this.heap, this.locks := heap, locks;
      table, refs := [], [];
    }

    // --- the heap's operations, which leave locks where they are ---

    ghost predicate PartsValid()
      reads heap, locks, heap.vm, heap.vm.store, heap.vm.smallPool, heap.vm.mediumPool, heap.vm.bigPool
    {
      heap.Valid() && locks.vm == heap.vm && locks.Valid()
    }

    method AllocBlock(size: nat) returns (r: nat, ghost p: nat)
      requires PartsValid() && heap.vm.free.big != []
      requires 1 <= size && NoWrap(heap.end, Grow(Units(size)), heap.vm.poolSize)
      modifies heap, heap.vm`info, heap.vm`cached, heap.vm`nextPageToSwap, heap.vm`held, heap.vm`counts, heap.vm`base, heap.vm`mem
      modifies heap.vm.store, heap.vm.smallPool, heap.vm.mediumPool, heap.vm.bigPool
      ensures PartsValid()
      ensures r == 0 <==> !old(heap.Available(Units(size))) &&
                          (old(heap.end) + HEADER_SIZE * Units(size) > heap.vm.poolSize || old(heap.end) + HEADER_SIZE * 16 > heap.vm.poolSize)
      ensures r == 0 ==> heap.freePointer == if old(heap.freePointer) == 0 then BASE_INDEX else old(heap.freePointer)
      ensures r == 0 ==> heap.blocks == old(heap.blocks) && heap.live == old(heap.live) && heap.end == old(heap.end) && heap.vm.mem == old(heap.vm.mem)
      ensures heap.end == old(heap.end) ||
              (heap.end == old(heap.end) + HEADER_SIZE * (if Units(size) < 16 then 16 else Units(size)) && !old(heap.Available(Units(size))))
      ensures r != 0 ==> r >= HEADER_SIZE &&
                         Served(old(heap.blocks), old(heap.live), old(heap.end), old(heap.freePointer), Units(size), p, r - HEADER_SIZE,
                                heap.blocks, heap.end, heap.freePointer)
      ensures Still(old(heap.vm.State()))
      ensures r != 0 ==> NewBlock(r, size, old(heap.live))
      ensures LiveKept(old(heap.vm.mem), old(heap.blocks), old(heap.live), heap.vm.mem, heap.blocks)
    {
      hide VHeap.Valid, VHeap.Available, VHeap.Allocated, LiveKept, Units, Grow, NoWrap, Served, MemoryRuns.Session.Valid, MemoryRuns.AllShow, MemoryRuns.Counted, SameShape;
      ghost var s := heap.vm.State();
      LocksAre(locks);
      r, p := heap.AllocRaw(size);
      SizesAre(heap);
      LocksStill(locks, s);
      if r != 0 {
        NewPlace(heap, r, size, old(heap.live));
      }
    }

    /** Locks, and the pages they are on, stay. */
    ghost predicate Still(s: LockState)
      reads heap, heap.vm`held, heap.vm`counts
    {
      SameShape(s.held, heap.vm.held) && heap.vm.counts == s.counts
    }

    /** Where the new block is. */
    ghost predicate NewBlock(r: nat, size: nat, live: set<nat>)
      reads heap, heap.vm`mem
    {
      && FIRST + HEADER_SIZE <= r && r - HEADER_SIZE !in live && heap.live == live + {r - HEADER_SIZE}
      && r - HEADER_SIZE in heap.blocks && heap.blocks[r - HEADER_SIZE] == Units(size) && r + size <= |heap.vm.mem|
    }

    method FreeBlock(ptr: nat)
      requires PartsValid() && heap.vm.free.big != [] && HEADER_SIZE <= ptr && ptr - HEADER_SIZE in heap.live
      modifies heap, heap.vm`info, heap.vm`cached, heap.vm`nextPageToSwap, heap.vm`held, heap.vm`counts, heap.vm`base, heap.vm`mem
      modifies heap.vm.store, heap.vm.smallPool, heap.vm.mediumPool, heap.vm.bigPool
      ensures PartsValid() && heap.live == old(heap.live) - {ptr - HEADER_SIZE} && heap.blocks == old(heap.blocks) && heap.end == old(heap.end)
      ensures IsNext(FreeSet(heap.blocks, heap.live), heap.freePointer, ptr - HEADER_SIZE)
      ensures Still(old(heap.vm.State()))
      ensures LiveKept(old(heap.vm.mem), heap.blocks, heap.live, heap.vm.mem, heap.blocks)
    {
      hide VHeap.Valid, LiveKept, MemoryRuns.Session.Valid, MemoryRuns.AllShow, MemoryRuns.Counted, SameShape;
      ghost var s := heap.vm.State();
      LocksAre(locks);
      heap.Free(ptr);
      SizesAre(heap);
      LocksStill(locks, s);
    }

    method PutBlock(h: nat, off: nat, d: seq<byte>)
      requires PartsValid() && heap.vm.free.big != []
      requires h in heap.live && h in heap.blocks && HEADER_SIZE + off + |d| <= HEADER_SIZE * heap.blocks[h]
      requires 1 <= |d| <= heap.vm.bigPool.Length1 && heap.vm.WriteFits(h + HEADER_SIZE + off, |d|)
      modifies heap.vm`info, heap.vm`cached, heap.vm`nextPageToSwap, heap.vm`held, heap.vm`counts, heap.vm`base, heap.vm`mem
      modifies heap.vm.store, heap.vm.smallPool, heap.vm.mediumPool, heap.vm.bigPool
      ensures PartsValid() && Still(old(heap.vm.State()))
      ensures Stored(old(heap.vm.mem), h + HEADER_SIZE + off, d, heap.vm.mem)
      ensures forall a :: a in heap.live && a != h ==> LiveKept(old(heap.vm.mem), heap.blocks, {a}, heap.vm.mem, heap.blocks)
    {
      hide VHeap.Valid, LiveKept, MemoryRuns.Session.Valid, MemoryRuns.AllShow, MemoryRuns.Counted, SameShape, Stored, BaseVAlloc.WriteFits;
      ghost var s := heap.vm.State();
      LocksAre(locks);
      heap.WriteBlock(h, off, d);
      SizesAre(heap);
      LocksStill(locks, s);
    }

    method GetBlock(h: nat, off: nat, n: nat) returns (d: seq<byte>)
      requires PartsValid() && heap.vm.free.big != []
      requires h in heap.live && h in heap.blocks && HEADER_SIZE + off + n <= HEADER_SIZE * heap.blocks[h] && 1 <= n <= heap.vm.bigPool.Length1
      modifies heap.vm`info, heap.vm`cached, heap.vm`nextPageToSwap, heap.vm`base, heap.vm.store, heap.vm.bigPool
      ensures PartsValid()
      ensures h + HEADER_SIZE + off + n <= |heap.vm.mem| && d == heap.vm.mem[h + HEADER_SIZE + off..h + HEADER_SIZE + off + n]
    {
      hide VHeap.Valid, MemoryRuns.Session.Valid, MemoryRuns.AllShow, MemoryRuns.Counted, SameShape;
      ghost var s := heap.vm.State();
      LocksAre(locks);
      d := heap.ReadBlock(h, off, n);
      SizesAre(heap);
      LocksUntouched(locks, s);
    }

    lemma FreeIs()
      requires PartsValid()
      ensures heap.vm.Valid() && locks.vm == heap.vm && heap.poolFreePos == heap.end
      ensures heap.vm.info.big.freeIndex == -1 <==> heap.vm.free.big == []
      ensures heap.vm.free.big == [] <==> !heap.vm.BigUnlocked(heap.vm.counts)
    {
      hide BaseVAlloc.Valid, MemoryRuns.Session.Valid;
      MemoryRuns.FreeIndex(heap.vm);
    }

    lemma NewBlockIs(r: nat, size: nat, live: set<nat>)
      requires NewBlock(r, size, live)
      ensures FIRST + HEADER_SIZE <= r && r - HEADER_SIZE !in live && heap.live == live + {r - HEADER_SIZE}
      ensures r - HEADER_SIZE in heap.blocks && heap.blocks[r - HEADER_SIZE] == Units(size) && r + size <= |heap.vm.mem|
    {
    }

    // --- what callers may ask for ---

    lemma HasIs(k: nat, off: nat, n: nat)
      requires Valid()
      ensures Objects().Has(k, off, n) <==> Holds(k, off, n)
      ensures Holds(k, off, n) ==> table[k].ptr + table[k].size <= |heap.vm.mem|
                                   && Objects().objs[k] == Obj(heap.vm.mem[table[k].ptr..table[k].ptr + table[k].size])
    {
      hide VHeap.Valid, MemoryRuns.Session.Valid, RefsOk;
      ObjsAre();
    }

    lemma MayAlloc(size: nat)
      requires Valid()
      ensures Allowed(Alloc(size)) <==> size > 0 && NoWrap(heap.end, Grow(Units(size)), heap.vm.poolSize) && heap.vm.BigUnlocked(heap.vm.counts)
    {
      hide VHeap.Valid, MemoryRuns.Session.Valid, NoWrap, Grow, Units, BaseVAlloc.BigUnlocked;
    }

    lemma MayFree(k: nat)
      requires Valid()
      ensures Allowed(Free(k)) <==> Holds(k, 0, 0) && NotLocked(k) && heap.vm.BigUnlocked(heap.vm.counts)
    {
      hide VHeap.Valid, MemoryRuns.Session.Valid, BaseVAlloc.BigUnlocked;
      HasIs(k, 0, 0);
    }

    lemma MayPut(k: nat, off: nat, d: seq<byte>)
      requires Valid()
      ensures Allowed(Put(k, off, d)) <==>
        && Holds(k, off, |d|) && 1 <= |d| <= heap.vm.bigPool.Length1 && heap.vm.BigUnlocked(heap.vm.counts)
        && heap.vm.WriteFits(table[k].ptr + off, |d|)
    {
      hide VHeap.Valid, MemoryRuns.Session.Valid, BaseVAlloc.BigUnlocked, BaseVAlloc.FitsIn;
      HasIs(k, off, |d|);
    }

    lemma MayGet(k: nat, off: nat, n: nat)
      requires Valid()
      ensures Allowed(Get(k, off, n)) <==> Holds(k, off, n) && 1 <= n <= heap.vm.bigPool.Length1 && heap.vm.BigUnlocked(heap.vm.counts)
    {
      hide VHeap.Valid, MemoryRuns.Session.Valid, BaseVAlloc.BigUnlocked;
      HasIs(k, off, n);
    }

    lemma MayLock(op: Op)
      requires Valid() && (op.MakeLock? || op.MakeDataLock?)
      ensures Allowed(op) <==> Holds(op.k, op.off, op.want) && locks.Allowed(InMemory(op, table[op.k].ptr))
    {
      hide VHeap.Valid, MemoryRuns.Session.Valid, MemoryRuns.AllowedIn;
      HasIs(op.k, op.off, op.want);
    }

    lemma MayStore(j: nat, off: nat, d: seq<byte>)
      requires Valid()
      ensures Allowed(Store(j, off, d)) <==> locks.Allowed(MemoryRuns.Store(j, off, d))
    {
      hide VHeap.Valid, MemoryRuns.Session.Valid, RefsOk, AllPlaced;
      RefIs(j, off, |d|);
    }

    lemma MayFetch(j: nat, off: nat, n: nat)
      requires Valid()
      ensures Allowed(Fetch(j, off, n)) <==> locks.Allowed(MemoryRuns.Fetch(j, off, n))
    {
      hide VHeap.Valid, MemoryRuns.Session.Valid, RefsOk, AllPlaced;
      RefIs(j, off, n);
    }

    // --- what every operation leaves ---

    lemma KeptBy(v: View, op: Op, out: Out, o: MemoryRuns.Out)
      requires locks.Kept(v.memory, o) && (out == Refused ==> o == MemoryRuns.Refused) && out != Skipped
      requires BlocksMove(v, op, out, Now())
      ensures Kept(v, op, out, Now())
    {
      hide MemoryRuns.LocksHold, MemoryRuns.NoneNewHeld, BlocksMove;
    }

    lemma KeptHeap(v: View, op: Op, out: Out)
      requires locks.vm == heap.vm && v.memory.places == locks.places && Still(v.memory.state)
      requires BlocksMove(v, op, out, Now()) && out != Skipped && out != Refused
      ensures Kept(v, op, out, Now())
    {
      hide BlocksMove, MemoryRuns.Session.Kept, SameShape, HeldFrom, LocksKeep;
      MemoryRuns.SameShapeFrom(v.memory.state.held, heap.vm.held);
      MemoryRuns.SameShapeKeeps(v.memory.state, heap.vm.State());
      locks.KeptLocks(v.memory, MemoryRuns.Ok);
      KeptBy(v, op, out, MemoryRuns.Ok);
    }

    lemma KeptSkipped(op: Op)
      ensures Kept(Now(), op, Skipped, Now())
    {
    }

    // --- the operations ---

    method DoAlloc(size: nat) returns (out: Out)
      requires Valid()
      modifies this`table, heap, heap.vm`info, heap.vm`cached, heap.vm`nextPageToSwap, heap.vm`held, heap.vm`counts, heap.vm`base, heap.vm`mem
      modifies heap.vm.store, heap.vm.smallPool, heap.vm.mediumPool, heap.vm.bigPool
      ensures Valid() && Means(old(Objects()), Alloc(size), out, Objects())
      ensures out == Skipped <==> !old(Allowed(Alloc(size)))
      ensures out == NoRoom <==> old(Allowed(Alloc(size))) && NoRoomIn(heap.vm, old(Now()), Alloc(size))
      ensures !out.Refused? && !out.Locked? && Kept(old(Now()), Alloc(size), out, Now())
    {
      hide PartsValid, NewBlock, AvailableIn, LiveKept, AllPlaced, Units, Grow, NoWrap, MemoryRuns.Session.Valid, SameShape, ObjAt, Means, RefsOk, MemoryRuns.AllShow, MemoryRuns.Counted, AllowedIn, Kept, Still, BlocksMove, BaseVAlloc.BigUnlocked, Served;
      MeansSkipped(Objects(), Alloc(size));
      KeptSkipped(Alloc(size));
      MayAlloc(size);
      FreeIs();
      if size == 0 || !NoWrap(heap.poolFreePos, Grow(Units(size)), heap.vm.poolSize) || heap.vm.info.big.freeIndex == -1 {
        return Skipped;
      }
      ghost var v, m, blocks, live := Now(), heap.vm.mem, heap.blocks, heap.live;
      var r;
      ghost var p;
      r, p := AllocBlock(size);
      if r == 0 {
        MeansNoRoom(Objects(), size);
        BlocksStay(v, Alloc(size), NoRoom, Now());
        KeptHeap(v, Alloc(size), NoRoom);
        return NoRoom;
      }
      var e := Entry(r, size);
      NewBlockIs(r, size, live);
      AllocPlaced(m, blocks, live, heap.vm.mem, heap.blocks, heap.live, table, e);
      MeansAlloc(m, heap.vm.mem, table, refs, e);
      RefsAfterAlloc(refs, locks.grants, table, e);
      table := table + [e];
      BlockAdded(v, size, p, Now());
      KeptHeap(v, Alloc(size), Ok);
      return Ok;
    }

    method DoFree(k: nat) returns (out: Out)
      requires Valid()
      modifies this`table, heap, heap.vm`info, heap.vm`cached, heap.vm`nextPageToSwap, heap.vm`held, heap.vm`counts, heap.vm`base, heap.vm`mem
      modifies heap.vm.store, heap.vm.smallPool, heap.vm.mediumPool, heap.vm.bigPool
      ensures Valid() && Means(old(Objects()), Free(k), out, Objects())
      ensures out != NoRoom && !out.Refused? && !out.Locked? && (out == Skipped <==> !old(Allowed(Free(k))))
      ensures Kept(old(Now()), Free(k), out, Now())
    {
      hide PartsValid, LiveKept, AllPlaced, Placed, ObjAt, MemoryRuns.Session.Valid, SameShape, Means, RefsOk, MemoryRuns.AllShow, MemoryRuns.Counted, AllowedIn, Kept, Still, BlocksMove, BaseVAlloc.BigUnlocked, IsNext, FreeSet;
      MeansSkipped(Objects(), Free(k));
      KeptSkipped(Free(k));
      MayFree(k);
      HasIs(k, 0, 0);
      FreeIs();
      if !Holds(k, 0, 0) || !NotLocked(k) || heap.vm.info.big.freeIndex == -1 {
        return Skipped;
      }
      ghost var v, m, live := Now(), heap.vm.mem, heap.live;
      PlacedIs(table, heap.blocks, heap.live, k);
      FreeBlock(table[k].ptr);
      FreePlaced(m, heap.blocks, live, heap.vm.mem, heap.live, table, k);
      MeansFree(m, heap.vm.mem, table, refs, k);
      RefsAfterFree(refs, locks.grants, table, k);
      table := table[k := Entry(0, 0)];
      BlockFreed(v, k, Now());
      KeptHeap(v, Free(k), Ok);
      return Ok;
    }

    method DoPut(k: nat, off: nat, d: seq<byte>) returns (out: Out)
      requires Valid()
      modifies heap.vm`info, heap.vm`cached, heap.vm`nextPageToSwap, heap.vm`held, heap.vm`counts, heap.vm`base, heap.vm`mem
      modifies heap.vm.store, heap.vm.smallPool, heap.vm.mediumPool, heap.vm.bigPool
      ensures Valid() && Means(old(Objects()), Put(k, off, d), out, Objects())
      ensures out != NoRoom && !out.Refused? && !out.Locked? && (out == Skipped <==> !old(Allowed(Put(k, off, d))))
      ensures Kept(old(Now()), Put(k, off, d), out, Now())
    {
      hide PartsValid, LiveKept, AllPlaced, Placed, ObjAt, BaseVAlloc.WriteFits, Stored, MemoryRuns.Session.Valid, SameShape, RefsOk, Means, MemoryRuns.AllShow, MemoryRuns.Counted, AllowedIn, Kept, Still, BlocksMove, BaseVAlloc.BigUnlocked;
      MeansSkipped(Objects(), Put(k, off, d));
      KeptSkipped(Put(k, off, d));
      MayPut(k, off, d);
      HasIs(k, off, |d|);
      FreeIs();
      if !Holds(k, off, |d|) || d == [] || |d| > heap.vm.bigPool.Length1 || heap.vm.info.big.freeIndex == -1 {
        return Skipped;
      }
      var fits := MemoryRuns.CanWrite(heap.vm, table[k].ptr + off, |d|);
      if !fits {
        return Skipped;
      }
      ghost var v, m := Now(), heap.vm.mem;
      PlacedIs(table, heap.blocks, heap.live, k);
      PlacedSize(table[k], heap.blocks, heap.live);
      PutBlock(table[k].ptr - HEADER_SIZE, off, d);
      OthersStay(m, heap.blocks, heap.live, heap.vm.mem, table, k);
      StoredObjs(m, heap.vm.mem, table, k, off, d);
      MeansPut(World(ObjsAt(m, table), refs), k, off, d, Objects().objs);
      BlocksStay(v, Put(k, off, d), Ok, Now());
      KeptHeap(v, Put(k, off, d), Ok);
      return Ok;
    }

    method DoGet(k: nat, off: nat, n: nat) returns (out: Out)
      requires Valid()
      modifies heap.vm`info, heap.vm`cached, heap.vm`nextPageToSwap, heap.vm`base, heap.vm.store, heap.vm.bigPool
      ensures Valid() && Means(old(Objects()), Get(k, off, n), out, Objects())
      ensures out != NoRoom && !out.Refused? && !out.Locked? && (out == Skipped <==> !old(Allowed(Get(k, off, n))))
      ensures Kept(old(Now()), Get(k, off, n), out, Now())
    {
      hide PartsValid, AllPlaced, Placed, MemoryRuns.Session.Valid, RefsOk, Means, MemoryRuns.AllShow, MemoryRuns.Counted, AllowedIn, Kept, Still, BlocksMove, BaseVAlloc.BigUnlocked, Objects;
      MeansSkipped(Objects(), Get(k, off, n));
      KeptSkipped(Get(k, off, n));
      MayGet(k, off, n);
      FreeIs();
      if !Holds(k, off, n) || n == 0 || n > heap.vm.bigPool.Length1 || heap.vm.info.big.freeIndex == -1 {
        return Skipped;
      }
      HasIs(k, off, n);
      PlacedIs(table, heap.blocks, heap.live, k);
      PlacedSize(table[k], heap.blocks, heap.live);
      ghost var v := Now();
      var d := GetBlock(table[k].ptr - HEADER_SIZE, off, n);
      SliceOfSlice(heap.vm.mem, table[k].ptr, table[k].size, off, n);
      MeansGet(Objects(), k, off, n, d);
      BlocksStay(v, Get(k, off, n), Bytes(d), Now());
      StillSame(v.memory.state);
      KeptHeap(v, Get(k, off, n), Bytes(d));
      return Bytes(d);
    }

    method DoFlush(clear: bool) returns (out: Out)
      requires Valid()
      modifies heap.vm`info, heap.vm`cached, heap.vm.store
      ensures Valid() && Means(old(Objects()), if clear then ClearPages else Flush, out, Objects())
      ensures out == Ok && old(Allowed(if clear then ClearPages else Flush))
      ensures Kept(old(Now()), if clear then ClearPages else Flush, out, Now())
      ensures MemoryRuns.WrittenBack(if clear then MemoryRuns.ClearPages else MemoryRuns.Flush, old(locks.Now()), locks.Now())
    {
      hide AllPlaced, VHeap.Intact, BaseVAlloc.Valid, MemoryRuns.Session.Valid, RefsOk, MemoryRuns.AllShow, MemoryRuns.Counted, Kept, Still, BlocksMove;
      ghost var v, op := Now(), if clear then ClearPages else Flush;
      LocksAre(locks);
      if clear {
        heap.vm.ClearPages();
      } else {
        heap.vm.Flush();
      }
      LocksUntouched(locks, v.memory.state);
      BlocksStay(v, op, Ok, Now());
      StillSame(v.memory.state);
      KeptHeap(v, op, Ok);
      return Ok;
    }

    /** What a lock has done since `v`. */
    ghost predicate LockDone(v: View, op: Op, out: Out)
      reads this, heap, locks, heap.vm`mem, locks.vm`mem, locks.vm`held, locks.vm`cached, locks.vm`counts, locks.vm.store
    {
      && Means(v.world, op, out, Objects()) && out != NoRoom && (out == Skipped <==> !AllowedIn(heap.vm, v, op))
      && (out == Refused ==> RefusedIn(heap.vm, v, op)) && Kept(v, op, out, Now())
      && (out.Locked? ==> LockedAs(heap.vm, v, op, out.size, locks.Now()))
    }

    method DoLock(op: Op) returns (out: Out)
      requires Valid() && (op.MakeLock? || op.MakeDataLock?)
      modifies this`refs, locks`grants, locks`places, heap.vm`info, heap.vm`nextPageToSwap, heap.vm`free, heap.vm`locked, heap.vm`cached, heap.vm`held, heap.vm`counts, heap.vm`base
      modifies heap.vm.store, heap.vm.smallPool, heap.vm.mediumPool, heap.vm.bigPool
      ensures Valid() && LockDone(old(Now()), op, out)
    {
      hide PartsValid, AllPlaced, ObjAt, Means, RefsOk, AllowedIn, RefusedIn, LockedAs, MemoryRuns.LockedAs, MemoryRuns.AllowedIn, MemoryRuns.RefusedIn, MemoryRuns.Means, MemoryRuns.Session.Kept, Kept, BlocksMove, VHeap.Intact, Objects, MemoryRuns.Session.Valid;
      ghost var v := Now();
      MeansSkipped(Objects(), op);
      KeptSkipped(op);
      MayLock(op);
      if !Holds(op.k, op.off, op.want) {
        return Skipped;
      }
      HasIs(op.k, op.off, op.want);
      PartsAre();
      var o, ptr := MemoryRuns.Skipped, table[op.k].ptr;
      if op.MakeLock? {
        o := locks.DoLock(ptr + op.off, op.want, op.ro);
      } else {
        o := locks.DoDataLock(ptr + op.off, op.want, op.ro);
      }
      LockIs(old(locks.Flatten()), op, ptr, o, locks.Flatten());
      if o.Refused? {
        RefusedLock(heap.vm, v, op);
      }
      if o.Locked? {
        LockedLock(heap.vm, v, op, o.size, locks.Now());
      }
      out := Taken(v, op, o, old(locks.grants));
    }

    /** Enters the lock just taken, if there is one. */
    method Taken(ghost v: View, op: Op, o: MemoryRuns.Out, ghost grants: seq<MemoryRuns.Grant>) returns (out: Out)
      requires (op.MakeLock? || op.MakeDataLock?) && Holds(op.k, op.off, op.want) && Objects().Has(op.k, op.off, op.want)
      requires v.world == Objects() && BlocksSame(v)
      requires locks.Valid() && locks.vm == heap.vm && heap.Intact(heap.vm.mem) && heap.vm.poolSize < WORD_LIMIT
      requires AllPlaced(table, heap.blocks, heap.live) && RefsOk(refs, grants, table)
      requires o.Skipped? || o.Refused? || (o.Locked? && 1 <= o.size <= op.want)
      requires locks.grants == if o.Locked? then grants + [MemoryRuns.Grant(table[op.k].ptr + op.off, o.size, op.ro, true)] else grants
      requires locks.Kept(v.memory, o)
      modifies this`refs
      ensures Valid() && Means(old(Objects()), op, out, Objects())
      ensures out.Skipped? || out.Refused? || out.Locked?
      ensures (out.Skipped? <==> o.Skipped?) && (out.Refused? <==> o.Refused?) && (out.Locked? ==> out.size == o.size)
      ensures Kept(v, op, out, Now())
    {
      hide AllPlaced, VHeap.Intact, BaseVAlloc.Valid, MemoryRuns.Session.Valid, ObjAt, Means, RefsOk, MemoryRuns.Session.Kept, Kept, BlocksMove;
      ReadyAgain(heap, locks);
      if o.Skipped? {
        MeansSkipped(Objects(), op);
        SkippedAll(v.memory, o);
        KeptSkipped(op);
        return Skipped;
      }
      if o.Refused? {
        MeansRefused(Objects(), op);
        BlocksStay(v, op, Refused, Now());
        KeptBy(v, op, Refused, o);
        return Refused;
      }
      MeansLock(Objects(), op, o.size);
      RefsAfterLock(refs, grants, table, op.k, op.off, table[op.k].ptr + op.off, o.size, op.ro);
      refs := refs + [Ref(op.k, op.off, o.size, op.ro, true)];
      BlocksStay(v, op, Locked(o.size), Now());
      KeptBy(v, op, Locked(o.size), o);
      return Locked(o.size);
    }

    ghost predicate BlocksSame(v: View)
      reads this`table, heap
    {
      v.table == table && v.live == heap.live && v.blocks == heap.blocks && v.end == heap.end && v.start == heap.freePointer
    }

    lemma PartsAre()
      requires Valid()
      ensures locks.Valid() && locks.vm == heap.vm && heap.Intact(heap.vm.mem) && heap.vm.poolSize < WORD_LIMIT
      ensures AllPlaced(table, heap.blocks, heap.live) && RefsOk(refs, locks.grants, table)
    {
      hide AllPlaced, VHeap.Intact, BaseVAlloc.Valid, MemoryRuns.Session.Valid, RefsOk;
    }

    method DoStore(j: nat, off: nat, d: seq<byte>) returns (out: Out)
      requires Valid()
      modifies heap.vm.smallPool, heap.vm.mediumPool, heap.vm.bigPool, heap.vm`held, heap.vm`mem
      ensures Valid() && Means(old(Objects()), Store(j, off, d), out, Objects())
      ensures out != NoRoom && !out.Refused? && !out.Locked? && (out == Skipped <==> !old(Allowed(Store(j, off, d))))
      ensures Kept(old(Now()), Store(j, off, d), out, Now())
    {
      hide AllPlaced, Placed, VHeap.Intact, BaseVAlloc.Valid, MemoryRuns.Session.Valid, ObjAt, Stored, LiveKept, Means, RefsOk, AllowedIn, MemoryRuns.AllowedIn, MemoryRuns.Session.Kept, Kept, BlocksMove;
      KeptSkipped(Store(j, off, d));
      MayStore(j, off, d);
      ObjsAre();
      ghost var v, m := Now(), heap.vm.mem;
      RefIs(j, off, |d|);
      var o := locks.DoStore(j, off, d);
      if o == MemoryRuns.Skipped {
        SkippedAll(v.memory, o);
        ReadyAgain(heap, locks);
        MeansSkipped(Objects(), Store(j, off, d));
        return Skipped;
      }
      var k, at := refs[j].k, refs[j].off + off;
      PlacedIs(table, heap.blocks, heap.live, k);
      PlacedSize(table[k], heap.blocks, heap.live);
      heap.BlockStored(m, table[k].ptr - HEADER_SIZE, at, d);
      ReadyAgain(heap, locks);
      OthersStay(m, heap.blocks, heap.live, heap.vm.mem, table, k);
      StoredObjs(m, heap.vm.mem, table, k, at, d);
      MeansStore(World(ObjsAt(m, table), refs), j, off, d, Objects().objs);
      BlocksStay(v, Store(j, off, d), Ok, Now());
      KeptBy(v, Store(j, off, d), Ok, o);
      return Ok;
    }

    /** What is skipped changes nothing. */
    lemma SkippedAll(v: MemoryRuns.View, o: MemoryRuns.Out)
      requires locks.Kept(v, o) && o == MemoryRuns.Skipped
      ensures locks.Now() == v
    {
    }

    method DoFetch(j: nat, off: nat, n: nat) returns (out: Out)
      requires Valid()
      ensures Means(Objects(), Fetch(j, off, n), out, Objects())
      ensures out != NoRoom && !out.Refused? && !out.Locked? && (out == Skipped <==> !Allowed(Fetch(j, off, n)))
      ensures Kept(Now(), Fetch(j, off, n), out, Now())
    {
      hide AllPlaced, Placed, VHeap.Intact, BaseVAlloc.Valid, MemoryRuns.Session.Valid, Means, RefsOk, AllowedIn, MemoryRuns.AllowedIn, MemoryRuns.Session.Kept, Kept, BlocksMove;
      KeptSkipped(Fetch(j, off, n));
      MayFetch(j, off, n);
      ObjsAre();
      RefIs(j, off, n);
      var o := locks.DoFetch(j, off, n);
      if o == MemoryRuns.Skipped {
        MeansSkipped(Objects(), Fetch(j, off, n));
        return Skipped;
      }
      var k := refs[j].k;
      SliceOfSlice(heap.vm.mem, table[k].ptr, table[k].size, refs[j].off + off, n);
      MeansFetch(Objects(), j, off, n, o.d);
      BlocksStay(Now(), Fetch(j, off, n), Bytes(o.d), Now());
      KeptBy(Now(), Fetch(j, off, n), Bytes(o.d), o);
      return Bytes(o.d);
    }

    method DoRelease(j: nat) returns (out: Out)
      requires Valid()
      modifies this`refs, locks`grants, heap.vm`info, heap.vm`nextPageToSwap, heap.vm`free, heap.vm`locked, heap.vm`cached, heap.vm`held, heap.vm`counts, heap.vm`base
      modifies heap.vm.store, heap.vm.bigPool
      ensures Valid() && Means(old(Objects()), Release(j), out, Objects())
      ensures out != NoRoom && !out.Refused? && !out.Locked? && (out == Skipped <==> !old(Allowed(Release(j))))
      ensures Kept(old(Now()), Release(j), out, Now())
    {
      hide AllPlaced, Placed, VHeap.Intact, BaseVAlloc.Valid, MemoryRuns.Session.Valid, ObjAt, Means, RefsOk, MemoryRuns.AllowedIn, MemoryRuns.Session.Kept, Kept, BlocksMove;
      MeansSkipped(Objects(), Release(j));
      KeptSkipped(Release(j));
      ObjsAre();
      RefIs(j, 0, 0);
      ghost var v := Now();
      var o := locks.DoRelease(j);
      ReadyAgain(heap, locks);
      if o == MemoryRuns.Skipped {
        SkippedAll(v.memory, o);
        return Skipped;
      }
      MeansRelease(Objects(), j);
      RefsAfterRelease(refs, old(locks.grants), table, j);
      refs := refs[j := refs[j].(open := false)];
      BlocksStay(v, Release(j), Ok, Now());
      KeptBy(v, Release(j), Ok, o);
      return Ok;
    }

    /** A lock of the allocator, seen as a lock of part of an object. */
    lemma RefIs(j: nat, off: nat, n: nat)
      requires Valid()
      ensures |refs| == |locks.grants|
      ensures Objects().Open(j, off, n) <==> j < |locks.grants| && locks.grants[j].open && off + n <= locks.grants[j].size
      ensures Objects().Open(j, off, n) ==>
                && refs[j].ro == locks.grants[j].ro && refs[j].k < |table| && table[refs[j].k].ptr != 0
                && refs[j].off + refs[j].size <= table[refs[j].k].size && locks.grants[j].p == table[refs[j].k].ptr + refs[j].off
    {
      hide VHeap.Valid, MemoryRuns.Session.Valid, AllPlaced;
      ObjsAre();
    }

    /** An entry that names a block shows an object of its size. */
    lemma ObjsAre()
      requires Valid()
      ensures forall k :: 0 <= k < |table| && table[k].ptr != 0 ==>
        table[k].ptr + table[k].size <= |heap.vm.mem| && Objects().objs[k] == Obj(heap.vm.mem[table[k].ptr..table[k].ptr + table[k].size])
      ensures forall k :: 0 <= k < |table| && table[k].ptr == 0 ==> Objects().objs[k] == Gone
    {
      hide VHeap.Valid, MemoryRuns.Session.Valid, RefsOk;
      forall k | 0 <= k < |table| && table[k].ptr != 0
        ensures table[k].ptr + table[k].size <= |heap.vm.mem| && table[k].ptr - HEADER_SIZE in heap.live
      {
        assert Placed(table[k], heap.blocks, heap.live);
        BlockEnds(heap, table[k].ptr - HEADER_SIZE);
      }
    }

    /** Every operation is a step of the objects. */
    method Do(op: Op) returns (out: Out)
      requires Valid()
      modifies this, heap, locks, heap.vm, heap.vm.store, heap.vm.smallPool, heap.vm.mediumPool, heap.vm.bigPool
      ensures Valid() && Steps(heap.vm, old(Now()), op, out, Now())
    {
      hide Valid, Means, Units, Grow, AvailableIn, AllowedIn, RefusedIn, LockedAs, MemoryRuns.WrittenBack, Kept, Steps;
      ghost var v := Now();
      match op {
        case Alloc(size) => out := DoAlloc(size);
        case Free(k) => out := DoFree(k);
        case Put(k, off, d) => out := DoPut(k, off, d);
        case Get(k, off, n) => out := DoGet(k, off, n);
        case Flush => out := DoFlush(false);
        case ClearPages => out := DoFlush(true);
        case MakeLock(k, off, want, ro) => out := DoLock(op);
        case MakeDataLock(k, off, want, ro) => out := DoLock(op);
        case Store(j, off, d) => out := DoStore(j, off, d);
        case Fetch(j, off, n) => out := DoFetch(j, off, n);
        case Release(j) => out := DoRelease(j);
      }
      IsStep(v, op, out);
    }

    lemma IsStep(v: View, op: Op, out: Out)
      requires Valid() && Means(v.world, op, out, Objects()) && Kept(v, op, out, Now())
      requires out == Skipped <==> !AllowedIn(heap.vm, v, op)
      requires out == NoRoom <==> AllowedIn(heap.vm, v, op) && NoRoomIn(heap.vm, v, op)
      requires out == Refused ==> RefusedIn(heap.vm, v, op)
      requires out.Locked? ==> LockedAs(heap.vm, v, op, out.size, locks.Now())
      requires op.Flush? ==> MemoryRuns.WrittenBack(MemoryRuns.Flush, v.memory, locks.Now())
      requires op.ClearPages? ==> MemoryRuns.WrittenBack(MemoryRuns.ClearPages, v.memory, locks.Now())
      ensures Steps(heap.vm, v, op, out, Now())
    {
      hide Means, AllowedIn, NoRoomIn, RefusedIn, LockedAs, Kept, AllPlaced, RefsOk, BaseVAlloc.Valid, MemoryRuns.Session.Valid, MemoryRuns.AllShow, MemoryRuns.Counted, MemoryRuns.Backed, MemoryRuns.WrittenBack, ObjsAt, Tiled;
      LocksAre(locks);
      MemoryRuns.BackedIs(locks.vm, locks.Now());
      TiledIs(heap);
    }

    /** And every run is a run of the objects. */
    method Run(ops: seq<Op>) returns (outs: seq<Out>, ghost trace: seq<View>)
      requires Valid()
      modifies this, heap, locks, heap.vm, heap.vm.store, heap.vm.smallPool, heap.vm.mediumPool, heap.vm.bigPool
      ensures Valid() && Explains(heap.vm, trace, ops, outs)
      ensures trace[0] == old(Now()) && trace[|ops|] == Now() && old(locks.places) <= locks.places
    {
      hide Valid, Steps;
      outs, trace := [], [Now()];
      var i := 0;
      while i < |ops|
        invariant 0 <= i <= |ops| && Valid() && Explains(heap.vm, trace, ops[..i], outs)
        invariant trace[0] == old(Now()) && trace[i] == Now() && old(locks.places) <= locks.places
      {
        ghost var v := Now();
        var out := Do(ops[i]);
        PlacesStay(heap.vm, v, ops[i], out, Now());
        OneMore(heap.vm, trace, ops, i, outs, out, Now());
        outs, trace := outs + [out], trace + [Now()];
        i := i + 1;
      }
      assert ops[..i] == ops;
    }

    lemma StillSame(s: LockState)
      requires s.held == heap.vm.held && s.counts == heap.vm.counts
      ensures Still(s)
    {
      hide SameShape;
      heap.vm.SameShapeSelf(s.held);
    }
  }

  // --- what the steps mean ---

  lemma MeansSkipped(w: World, op: Op)
    ensures Means(w, op, Skipped, w)
  {
  }

  lemma MeansAlloc(m: seq<byte>, m': seq<byte>, table: seq<Entry>, refs: seq<Ref>, e: Entry)
    requires forall j :: 0 <= j < |table| ==> ObjAt(m', table[j]) == ObjAt(m, table[j])
    requires e.ptr != 0 && e.ptr + e.size <= |m'|
    ensures Means(World(ObjsAt(m, table), refs), Alloc(e.size), Ok, World(ObjsAt(m', table + [e]), refs))
  {
    assert ObjsAt(m', table + [e]) == ObjsAt(m, table) + [Obj(m'[e.ptr..e.ptr + e.size])];
  }

  lemma MeansNoRoom(w: World, size: nat)
    ensures Means(w, Alloc(size), NoRoom, w)
  {
  }

  lemma MeansRefused(w: World, op: Op)
    requires op.MakeLock? || op.MakeDataLock?
    ensures Means(w, op, Refused, w)
  {
  }

  lemma MeansFetch(w: World, j: nat, off: nat, n: nat, d: seq<byte>)
    requires w.Open(j, off, n) && d == w.objs[w.refs[j].k].bytes[w.refs[j].off + off..w.refs[j].off + off + n]
    ensures Means(w, Fetch(j, off, n), Bytes(d), w)
  {
  }

  lemma MeansFree(m: seq<byte>, m': seq<byte>, table: seq<Entry>, refs: seq<Ref>, k: nat)
    requires k < |table| && ObjAt(m, table[k]).Obj? && forall j :: 0 <= j < |refs| && refs[j].open ==> refs[j].k != k
    requires forall j :: 0 <= j < |table| && j != k ==> ObjAt(m', table[j]) == ObjAt(m, table[j])
    ensures Means(World(ObjsAt(m, table), refs), Free(k), Ok, World(ObjsAt(m', table[k := Entry(0, 0)]), refs))
  {
    var table' := table[k := Entry(0, 0)];
    assert ObjAt(m', Entry(0, 0)) == Gone;
    assert ObjsAt(m', table') == ObjsAt(m, table)[k := Gone];
  }

  lemma StoredObjs(m: seq<byte>, m': seq<byte>, table: seq<Entry>, k: nat, off: nat, d: seq<byte>)
    requires k < |table| && table[k].ptr != 0 && table[k].ptr + table[k].size <= |m| && off + |d| <= table[k].size
    requires Stored(m, table[k].ptr + off, d, m')
    requires forall j :: 0 <= j < |table| && j != k ==> ObjAt(m', table[j]) == ObjAt(m, table[j])
    ensures ObjStored(ObjsAt(m, table), k, off, d, ObjsAt(m', table))
    ensures |ObjAt(m, table[k]).bytes| == table[k].size
  {
  }

  lemma MeansPut(w: World, k: nat, off: nat, d: seq<byte>, objs: seq<Obj>)
    requires ObjStored(w.objs, k, off, d, objs) && off + |d| <= |w.objs[k].bytes|
    ensures Means(w, Put(k, off, d), Ok, w.(objs := objs))
  {
  }

  lemma MeansStore(w: World, j: nat, off: nat, d: seq<byte>, objs: seq<Obj>)
    requires w.Open(j, off, |d|) && !w.refs[j].ro && ObjStored(w.objs, w.refs[j].k, w.refs[j].off + off, d, objs)
    ensures Means(w, Store(j, off, d), Ok, w.(objs := objs))
  {
  }

  lemma MeansGet(w: World, k: nat, off: nat, n: nat, d: seq<byte>)
    requires w.Has(k, off, n) && d == w.objs[k].bytes[off..off + n]
    ensures Means(w, Get(k, off, n), Bytes(d), w)
  {
  }

  lemma MeansLock(w: World, op: Op, size: nat)
    requires (op.MakeLock? || op.MakeDataLock?) && 1 <= size <= op.want && w.Has(op.k, op.off, op.want)
    ensures Means(w, op, Locked(size), w.(refs := w.refs + [Ref(op.k, op.off, size, op.ro, true)]))
  {
  }

  lemma MeansRelease(w: World, j: nat)
    requires w.Open(j, 0, 0)
    ensures Means(w, Release(j), Ok, w.(refs := w.refs[j := w.refs[j].(open := false)]))
  {
  }

  lemma LockIs(s: MemoryRuns.Flat, op: Op, ptr: nat, o: MemoryRuns.Out, s': MemoryRuns.Flat)
    requires (op.MakeLock? || op.MakeDataLock?) && MemoryRuns.Means(s, InMemory(op, ptr), o, s')
    ensures o.Skipped? || o.Refused? || (o.Locked? && 1 <= o.size <= op.want)
    ensures s'.mem == s.mem
    ensures s'.grants == if o.Locked? then s.grants + [MemoryRuns.Grant(ptr + op.off, o.size, op.ro, true)] else s.grants
  {
  }

  lemma LockedLock(vm: BaseVAlloc, v: View, op: Op, size: nat, memory: MemoryRuns.View)
    requires (op.MakeLock? || op.MakeDataLock?) && op.k < |v.table|
    requires MemoryRuns.LockedAs(vm, v.memory, InMemory(op, v.table[op.k].ptr), size, memory)
    ensures LockedAs(vm, v, op, size, memory)
  {
    hide MemoryRuns.LockedAs;
  }

  lemma RefusedLock(vm: BaseVAlloc, v: View, op: Op)
    requires (op.MakeLock? || op.MakeDataLock?) && op.k < |v.table|
    requires MemoryRuns.RefusedIn(vm, v.memory.state.counts, InMemory(op, v.table[op.k].ptr))
    ensures RefusedIn(vm, v, op)
  {
    hide MemoryRuns.RefusedIn;
  }

  lemma RefsAfterFree(refs: seq<Ref>, grants: seq<MemoryRuns.Grant>, table: seq<Entry>, k: nat)
    requires RefsOk(refs, grants, table) && k < |table| && forall j :: 0 <= j < |refs| && refs[j].open ==> refs[j].k != k
    ensures RefsOk(refs, grants, table[k := Entry(0, 0)])
  {
  }

  lemma RefsAfterAlloc(refs: seq<Ref>, grants: seq<MemoryRuns.Grant>, table: seq<Entry>, e: Entry)
    requires RefsOk(refs, grants, table)
    ensures RefsOk(refs, grants, table + [e])
  {
  }

  lemma RefsAfterLock(refs: seq<Ref>, grants: seq<MemoryRuns.Grant>, table: seq<Entry>, k: nat, off: nat, p: nat, size: nat, ro: bool)
    requires RefsOk(refs, grants, table) && k < |table| && table[k].ptr != 0 && off + size <= table[k].size && p == table[k].ptr + off
    ensures RefsOk(refs + [Ref(k, off, size, ro, true)], grants + [MemoryRuns.Grant(p, size, ro, true)], table)
  {
  }

  lemma RefsAfterRelease(refs: seq<Ref>, grants: seq<MemoryRuns.Grant>, table: seq<Entry>, j: nat)
    requires RefsOk(refs, grants, table) && j < |refs| && j < |grants|
    ensures RefsOk(refs[j := refs[j].(open := false)], grants[j := grants[j].(open := false)], table)
  {
  }

  // --- how blocks move ---

  lemma BlocksStay(v: View, op: Op, out: Out, v': View)
    requires !(op.Alloc? && out == Ok) && !(op.Free? && out == Ok)
    requires v'.table == v.table && v'.live == v.live && v'.blocks == v.blocks && v'.end == v.end
    requires v'.start == if out == NoRoom && v.start == 0 then BASE_INDEX else v.start
    ensures BlocksMove(v, op, out, v')
  {
  }

  lemma BlockAdded(v: View, size: nat, p: nat, v': View)
    requires |v'.table| == |v.table| + 1 && v'.table == v.table + [v'.table[|v.table|]]
    requires var e := v'.table[|v.table|];
             e.size == size && e.ptr >= HEADER_SIZE && e.ptr - HEADER_SIZE !in v.live && v'.live == v.live + {e.ptr - HEADER_SIZE}
    requires v'.end == v.end ||
             (v'.end == v.end + HEADER_SIZE * (if Units(size) < 16 then 16 else Units(size)) && !AvailableIn(v.blocks, v.live, Units(size)))
    requires Served(v.blocks, v.live, v.end, v.start, Units(size), p, v'.table[|v.table|].ptr - HEADER_SIZE, v'.blocks, v'.end, v'.start)
    ensures BlocksMove(v, Alloc(size), Ok, v')
  {
    hide AvailableIn, Units, Served;
  }

  lemma BlockFreed(v: View, k: nat, v': View)
    requires k < |v.table| && v.table[k].ptr >= HEADER_SIZE && v'.table == v.table[k := Entry(0, 0)]
    requires v'.live == v.live - {v.table[k].ptr - HEADER_SIZE} && v'.blocks == v.blocks && v'.end == v.end
    requires IsNext(FreeSet(v'.blocks, v'.live), v'.start, v.table[k].ptr - HEADER_SIZE)
    ensures BlocksMove(v, Free(k), Ok, v')
  {
  }

  // --- what the steps need ---

  lemma SizesAre(heap: VHeap)
    requires heap.Valid()
    ensures heap.vm.Valid() && |heap.vm.mem| == heap.vm.store.Length == heap.vm.poolSize
  {
    hide BaseVAlloc.Valid, VHeap.Intact;
  }

  lemma LocksAre(locks: MemoryRuns.Session)
    requires locks.Valid()
    ensures MemoryRuns.AllShow(locks.vm.State(), locks.grants, locks.places)
    ensures MemoryRuns.Counted(locks.vm.counts, locks.grants, locks.places)
  {
    hide BaseVAlloc.Valid, MemoryRuns.AllShow, MemoryRuns.Counted;
  }

  lemma LocksStill(locks: MemoryRuns.Session, s: LockState)
    requires locks.vm.Valid() && |locks.vm.mem| == locks.vm.store.Length == locks.vm.poolSize
    requires MemoryRuns.AllShow(s, locks.grants, locks.places) && MemoryRuns.Counted(s.counts, locks.grants, locks.places)
    requires SameShape(s.held, locks.vm.held) && locks.vm.counts == s.counts
    ensures locks.Valid()
  {
    hide BaseVAlloc.Valid, MemoryRuns.AllShow, MemoryRuns.Counted, SameShape, PagesKeep;
    MemoryRuns.SameShapeKeeps(s, locks.vm.State());
    MemoryRuns.StillShow(s, locks.vm.State(), locks.grants, locks.places);
  }

  lemma LocksUntouched(locks: MemoryRuns.Session, s: LockState)
    requires locks.vm.Valid() && |locks.vm.mem| == locks.vm.store.Length == locks.vm.poolSize
    requires MemoryRuns.AllShow(s, locks.grants, locks.places) && MemoryRuns.Counted(s.counts, locks.grants, locks.places)
    requires locks.vm.held == s.held && locks.vm.counts == s.counts
    ensures locks.Valid()
  {
    hide BaseVAlloc.Valid, SameShape;
    locks.vm.SameShapeSelf(s.held);
    LocksStill(locks, s);
  }

  /** What locks do leaves the heap alone, as long as memory holds one. */
  lemma ReadyAgain(heap: VHeap, locks: MemoryRuns.Session)
    requires locks.Valid() && locks.vm == heap.vm && heap.Intact(heap.vm.mem) && heap.vm.poolSize < WORD_LIMIT
    ensures heap.Valid()
  {
    hide BaseVAlloc.Valid, VHeap.Intact, MemoryRuns.AllShow, MemoryRuns.Counted;
  }

  lemma TiledIs(heap: VHeap)
    requires heap.Valid()
    ensures Tiled(heap.blocks, heap.end)
  {
    hide VHeap.Ready, ListOk, SizesOk;
    EmptyTiled();
  }

  lemma NewPlace(heap: VHeap, r: nat, size: nat, live: set<nat>)
    requires heap.Valid() && heap.freePointer != 0 && heap.Allocated(r, Units(size), live)
    ensures FIRST + HEADER_SIZE <= r && r - HEADER_SIZE !in live && heap.live == live + {r - HEADER_SIZE}
    ensures r - HEADER_SIZE in heap.blocks && heap.blocks[r - HEADER_SIZE] == Units(size) && r + size <= |heap.vm.mem|
  {
    hide VHeap.Ready, HeapOk;
    heap.SizeFacts();
  }

  lemma SliceOfSlice(m: seq<byte>, p: nat, size: nat, off: nat, n: nat)
    requires p + size <= |m| && off + n <= size
    ensures m[p..p + size][off..off + n] == m[p + off..p + off + n]
  {
    var s, t := m[p..p + size][off..off + n], m[p + off..p + off + n];
    forall k | 0 <= k < n
      ensures s[k] == t[k]
    {
      assert s[k] == m[p..p + size][off + k] == m[p + off + k];
    }
    assert s == t;
  }

  lemma BlockEnds(heap: VHeap, h: nat)
    requires heap.Valid() && h in heap.live && h in heap.blocks
    ensures FIRST <= h && End(heap.blocks, h) <= |heap.vm.mem|
  {
    hide VHeap.Ready, HeapOk;
    heap.BlockFacts(h);
  }

  lemma PlacedIs(table: seq<Entry>, blocks: map<nat, nat>, live: set<nat>, k: nat)
    requires AllPlaced(table, blocks, live) && k < |table| && table[k].ptr != 0
    ensures Placed(table[k], blocks, live) && table[k].ptr >= HEADER_SIZE && table[k].ptr - HEADER_SIZE in live
  {
  }

  lemma PlacedSize(e: Entry, blocks: map<nat, nat>, live: set<nat>)
    requires Placed(e, blocks, live)
    ensures e.ptr >= HEADER_SIZE && e.ptr - HEADER_SIZE in live && e.ptr - HEADER_SIZE in blocks
    ensures HEADER_SIZE + e.size <= HEADER_SIZE * blocks[e.ptr - HEADER_SIZE]
  {
  }

  lemma FreePlaced(m: seq<byte>, blocks: map<nat, nat>, live: set<nat>, m': seq<byte>, live': set<nat>, table: seq<Entry>, k: nat)
    requires AllPlaced(table, blocks, live) && k < |table| && table[k].ptr >= HEADER_SIZE
    requires live' == live - {table[k].ptr - HEADER_SIZE} && LiveKept(m, blocks, live', m', blocks)
    ensures AllPlaced(table[k := Entry(0, 0)], blocks, live')
    ensures forall j :: 0 <= j < |table| && j != k ==> ObjAt(m', table[j]) == ObjAt(m, table[j])
  {
    hide LiveKept, ObjAt;
    forall j | 0 <= j < |table| && j != k && table[j].ptr != 0
      ensures LiveKept(m, blocks, {table[j].ptr - HEADER_SIZE}, m', blocks)
    {
      assert Placed(table[j], blocks, live) && table[j].ptr != table[k].ptr;
      KeptOne(m, blocks, live', m', blocks, table[j].ptr - HEADER_SIZE);
    }
    ObjsStay(m, blocks, live, m', blocks, table, k);
  }

  lemma OthersStay(m: seq<byte>, blocks: map<nat, nat>, live: set<nat>, m': seq<byte>, table: seq<Entry>, k: nat)
    requires AllPlaced(table, blocks, live) && k < |table| && table[k].ptr >= HEADER_SIZE
    requires forall a :: a in live && a != table[k].ptr - HEADER_SIZE ==> LiveKept(m, blocks, {a}, m', blocks)
    ensures forall j :: 0 <= j < |table| && j != k ==> ObjAt(m', table[j]) == ObjAt(m, table[j])
  {
    hide LiveKept, ObjAt;
    forall j | 0 <= j < |table| && j != k && table[j].ptr != 0
      ensures LiveKept(m, blocks, {table[j].ptr - HEADER_SIZE}, m', blocks)
    {
      assert Placed(table[j], blocks, live) && table[j].ptr != table[k].ptr;
    }
    ObjsStay(m, blocks, live, m', blocks, table, k);
  }

  lemma AllocPlaced(m: seq<byte>, blocks: map<nat, nat>, live: set<nat>, m': seq<byte>, blocks': map<nat, nat>, live': set<nat>,
                    table: seq<Entry>, e: Entry)
    requires AllPlaced(table, blocks, live) && LiveKept(m, blocks, live, m', blocks')
    requires FIRST + HEADER_SIZE <= e.ptr && e.ptr - HEADER_SIZE !in live && live' == live + {e.ptr - HEADER_SIZE}
    requires e.ptr - HEADER_SIZE in blocks' && blocks'[e.ptr - HEADER_SIZE] == Units(e.size)
    ensures AllPlaced(table + [e], blocks', live')
    ensures forall j :: 0 <= j < |table| ==> ObjAt(m', table[j]) == ObjAt(m, table[j])
  {
    forall j | 0 <= j < |table| && table[j].ptr != 0
      ensures LiveKept(m, blocks, {table[j].ptr - HEADER_SIZE}, m', blocks')
    {
      KeptOne(m, blocks, live, m', blocks', table[j].ptr - HEADER_SIZE);
    }
    ObjsStay(m, blocks, live, m', blocks', table, |table|);
  }

  /** A heap on a started allocator begins a run with no objects and no locks. */
  method Boot(vm: BaseVAlloc) returns (s: Session)
    requires vm.Config() && vm.Counted() && FIRST <= vm.poolSize < WORD_LIMIT
    modifies vm
    ensures fresh(s) && fresh(s.heap) && fresh(s.locks) && s.heap.vm == vm && s.Valid() && s.Objects() == World([], [])
  {
    hide BaseVAlloc.Valid, VHeap.Ready, MemoryRuns.Session.Valid;
    vm.Start();
    vm.HeldCounted();
    var heap := new VHeap(vm);
    ReadyIsValid(heap);
    var locks := new MemoryRuns.Session(vm);
    s := new Session(heap, locks);
  }

  lemma ReadyIsValid(heap: VHeap)
    requires heap.Ready() && heap.freePointer == 0 && heap.poolFreePos == heap.end == FIRST <= heap.vm.poolSize
    requires heap.blocks == map[] && heap.live == {} && heap.baseFreeList.Fits()
    ensures heap.Valid()
  {
  }
}
