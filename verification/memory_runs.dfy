/** Runs of the allocator: whatever clients read, write, lock, store, release and flush, in
    whatever order, they see one flat memory. */
module MemoryRuns {
  import opened Layers
  import opened PageLists
  import opened PageState
  import opened BaseAlloc
  import opened VPtrUtils

  // --- the flat memory ---

  datatype Op =
    | Read(p: nat, n: nat)
    | Write(p: nat, d: seq<byte>)
    | Flush
    | ClearPages
    | MakeLock(p: nat, want: nat, ro: bool)
    | MakeDataLock(p: nat, size: nat, ro: bool)
    | Store(k: nat, off: nat, d: seq<byte>)  // through lock number k
    | Fetch(k: nat, off: nat, n: nat)
    | Release(k: nat)

  /** An operation that its caller may not ask for is skipped; a lock may be refused. */
  datatype Out = Skipped | Ok | Bytes(d: seq<byte>) | Locked(size: nat) | Refused

  datatype Grant = Grant(p: nat, size: nat, ro: bool, open: bool)

  /** The memory and the locks taken so far. */
  datatype Flat = Flat(mem: seq<byte>, grants: seq<Grant>) {
    predicate Open(k: nat) { k < |grants| && grants[k].open }
  }

  /** What an operation means for the flat memory. */
  ghost predicate Means(s: Flat, op: Op, out: Out, s': Flat) {
    if out == Skipped then s' == s
    else if out == Refused then s' == s && (op.MakeLock? || op.MakeDataLock?)
    else match op
      case Read(p, n) => s' == s && p + n <= |s.mem| && out == Bytes(s.mem[p..p + n])
      case Write(p, d) => out == Ok && s'.grants == s.grants && Stored(s.mem, p, d, s'.mem)
      case Flush => out == Ok && s' == s
      case ClearPages => out == Ok && s' == s
      case MakeLock(p, want, ro) =>
        out.Locked? && 1 <= out.size <= want && s'.mem == s.mem && s'.grants == s.grants + [Grant(p, out.size, ro, true)]
      case MakeDataLock(p, size, ro) =>
        out.Locked? && 1 <= out.size <= size && s'.mem == s.mem && s'.grants == s.grants + [Grant(p, out.size, ro, true)]
      case Store(k, off, d) =>
        && out == Ok && s.Open(k) && !s.grants[k].ro && off + |d| <= s.grants[k].size
        && s'.grants == s.grants && Stored(s.mem, s.grants[k].p + off, d, s'.mem)
      case Fetch(k, off, n) =>
        && s' == s && s.Open(k) && off + n <= s.grants[k].size && s.grants[k].p + off + n <= |s.mem|
        && out == Bytes(s.mem[s.grants[k].p + off..s.grants[k].p + off + n])
      case Release(k) => out == Ok && s.Open(k) && s'.mem == s.mem && s'.grants == s.grants[k := s.grants[k].(open := false)]
  }

  // --- counting locks ---

  datatype Place = Place(page: Pid, offset: nat)

  /** The open locks on page `x`. */
  ghost function On(grants: seq<Grant>, places: seq<Place>, x: Pid): set<int>
    requires |places| == |grants|
  {
    set k | 0 <= k < |grants| && grants[k].open && places[k].page == x
  }

  /** A page is locked as often as there are open locks on it. */
  ghost predicate Counted(counts: map<Pid, nat>, grants: seq<Grant>, places: seq<Place>) {
    |places| == |grants| && forall x :: x in counts ==> counts[x] == |On(grants, places, x)|
  }

  /** Every open lock shows its bytes where they were when it was granted. */
  ghost predicate AllShow(s: LockState, grants: seq<Grant>, places: seq<Place>) {
    |places| == |grants| && forall k :: 0 <= k < |grants| && grants[k].open ==>
      Shows(s, places[k].page, places[k].offset, grants[k].size, grants[k].p, grants[k].ro)
  }

  // --- runs ---

  /** A moment of a run: the flat memory, where each lock's bytes are, what is locked and cached,
      and the backing pool. */
  datatype View = View(flat: Flat, places: seq<Place>, state: LockState, pool: seq<byte>)

  /** The pool has every byte of memory that no dirty page holds. */
  ghost predicate Backed(v: View) {
    && |v.pool| == |v.flat.mem|
    && forall a :: 0 <= a < |v.pool| ==> v.pool[a] == v.flat.mem[a] || DirtyAt(v.state.held, a) || DirtyAt(v.state.cached, a)
  }

  /** Locks show their bytes, pages are locked as often as there are locks on them, and nothing is lost. */
  ghost predicate Sound(v: View) {
    Backed(v) && AllShow(v.state, v.flat.grants, v.places) && Counted(v.state.counts, v.flat.grants, v.places)
  }

  /** What the caller of an operation must see to. */
  ghost predicate AllowedIn(vm: BaseVAlloc, v: View, op: Op) {
    var grants, s := v.flat.grants, v.state;
    match op
    case Read(p, n) => 1 <= p && 1 <= n <= vm.bigPool.Length1 && p + n <= vm.poolSize && vm.BigUnlocked(s.counts)
    case Write(p, d) =>
      && 1 <= p && 1 <= |d| <= vm.bigPool.Length1 && p + |d| <= vm.poolSize && vm.BigUnlocked(s.counts)
      && vm.FitsIn(s.held, p, |d|)
    case Flush => true
    case ClearPages => true
    case MakeLock(p, want, ro) => 1 <= p && 1 <= want && p + Min(want, vm.bigPool.Length1) <= vm.poolSize && MoreLocks(s, p)
    case MakeDataLock(p, size, ro) =>
      1 <= p && 1 <= size <= vm.bigPool.Length1 && p + size <= vm.poolSize && Clear(p, size, s.held, s.counts) && MoreLocks(s, p)
    case Store(k, off, d) => v.flat.Open(k) && !grants[k].ro && off + |d| <= grants[k].size
    case Fetch(k, off, n) => v.flat.Open(k) && off + n <= grants[k].size
    case Release(k) => v.flat.Open(k) && k < |v.places| && MayGo(vm, s, v.places[k].page)
  }

  /** The page that holds `p`, if any, may be locked once more. */
  ghost predicate MoreLocks(s: LockState, p: nat) {
    forall y :: y in s.held && s.held[y].Covers(p) ==> y in s.counts && s.counts[y] < 255
  }

  /** One lock of page `x` may be given back. */
  ghost predicate MayGo(vm: BaseVAlloc, s: LockState, x: Pid) {
    x in s.counts && (s.counts[x] == 1 ==> ClearAt(x, s.held, s.cached, vm.bigPool.Length1))
  }

  /** A lock is only refused when the pages it could be on are all locked. */
  ghost predicate RefusedIn(vm: BaseVAlloc, k: map<Pid, nat>, op: Op) {
    match op
    case MakeLock(p, want, ro) => forall y :: vm.IsPage(y) ==> y in k && k[y] > 0
    case MakeDataLock(p, size, ro) => vm.NoneFit(size, k)
    case _ => false
  }

  /** A lock is put on the page that makeFittingLock or makeDataLock has to choose, and is as large
      as that can be. */
  ghost predicate LockedAs(vm: BaseVAlloc, v: View, op: Op, size: nat, v': View) {
    |v'.places| > |v.places| &&
    var x := v'.places[|v.places|].page;
    match op
    case MakeLock(p, want, ro) => vm.FittingLock(x, p, size, want, ro, v.state, v'.state)
    case MakeDataLock(p, asked, ro) => vm.DataLock(x, p, size, asked, ro, false, v.state, v'.state)
    case _ => false
  }

  /** After a flush the pool has all that no dirty locked page holds; the same pages are cached,
      and clean, or none are. */
  ghost predicate WrittenBack(op: Op, v: View, v': View) {
    op.Flush? || op.ClearPages? ==>
      && |v'.pool| == |v'.flat.mem|
      && (forall a :: 0 <= a < |v'.pool| && !DirtyAt(v'.state.held, a) ==> v'.pool[a] == v'.flat.mem[a])
      && (op.ClearPages? ==> v'.state.cached == map[])
      && (op.Flush? ==> v'.state.cached.Keys == v.state.cached.Keys && forall j :: j in v'.state.cached ==> !v'.state.cached[j].dirty)
  }

  /** A page that stays locked stays where it is, and does not shrink. */
  ghost predicate LocksHold(s: LockState, s': LockState) {
    && s'.counts.Keys == s.counts.Keys
    && forall x :: x in s.held && x in s.counts && s.counts[x] > 0 && x in s'.counts && s'.counts[x] > 0 ==>
      x in s'.held && s'.held[x].start == s.held[x].start && |s'.held[x].data| >= |s.held[x].data|
  }

  /** Only the page of a lock just made is held anew. */
  ghost predicate NoneNewHeld(v: View, v': View) {
    PlacedFrom(v.state.held, v'.state.held, if |v'.places| > |v.places| then {v'.places[|v.places|].page} else {})
  }

  ghost predicate PlacedFrom(before: map<Pid, Window>, after: map<Pid, Window>, xs: set<Pid>) {
    forall y :: y in after && y !in xs ==> y in before && after[y].start == before[y].start
  }

  /** One operation does to the flat memory what it means.  It is skipped exactly when its
      caller may not ask for it, and then nothing changes at all.  Locks stay in their places. */
  ghost predicate Steps(vm: BaseVAlloc, v: View, op: Op, out: Out, v': View) {
    && Means(v.flat, op, out, v'.flat)
    && (out == Skipped <==> !AllowedIn(vm, v, op)) && (out == Skipped ==> v' == v)
    && (out == Refused ==> v'.state.counts == v.state.counts && RefusedIn(vm, v.state.counts, op))
    && (out.Locked? ==> LockedAs(vm, v, op, out.size, v')) && WrittenBack(op, v, v')
    && v.places <= v'.places && LocksHold(v.state, v'.state) && NoneNewHeld(v, v') && Sound(v')
  }

  /** A run of the flat memory. */
  ghost predicate Explains(vm: BaseVAlloc, trace: seq<View>, ops: seq<Op>, outs: seq<Out>) {
    |trace| == |ops| + 1 && |outs| == |ops| && forall i :: 0 <= i < |ops| ==> Steps(vm, trace[i], ops[i], outs[i], trace[i + 1])
  }

  lemma CountedMore(counts: map<Pid, nat>, grants: seq<Grant>, places: seq<Place>, g: Grant, at: Place)
    requires Counted(counts, grants, places) && g.open && at.page in counts
    ensures Counted(counts[at.page := counts[at.page] + 1], grants + [g], places + [at])
  {
    forall x | x in counts
      ensures |On(grants + [g], places + [at], x)| == counts[x] + if x == at.page then 1 else 0
    {
      var s, s' := On(grants, places, x), On(grants + [g], places + [at], x);
      assert s' == if x == at.page then s + {|grants|} else s;
    }
  }

  lemma CountedLess(counts: map<Pid, nat>, grants: seq<Grant>, places: seq<Place>, k: nat)
    requires Counted(counts, grants, places) && k < |grants| && grants[k].open && places[k].page in counts
    ensures counts[places[k].page] > 0
    ensures Counted(counts[places[k].page := counts[places[k].page] - 1], grants[k := grants[k].(open := false)], places)
  {
    var grants' := grants[k := grants[k].(open := false)];
    forall x | x in counts
      ensures |On(grants, places, x)| == |On(grants', places, x)| + if x == places[k].page then 1 else 0
    {
      assert On(grants', places, x) == On(grants, places, x) - {k};
    }
  }

  lemma LongerData(before: map<Pid, Window>, after: map<Pid, Window>, k: map<Pid, nat>)
    requires LocksGrow(before, after, k)
    ensures forall x :: x in before && x in k && k[x] > 0 ==>
      x in after && after[x].start == before[x].start && |after[x].data| >= |before[x].data|
  {
    forall x | x in before && x in k && k[x] > 0
      ensures x in after && after[x].start == before[x].start && |after[x].data| >= |before[x].data|
    {
      assert before[x].data <= after[x].data;
    }
  }

  lemma FromHeld(before: map<Pid, Window>, after: map<Pid, Window>, xs: set<Pid>)
    requires HeldFrom(before, after, xs)
    ensures PlacedFrom(before, after, xs)
  {
  }

  lemma LargerToo(vm: BaseVAlloc, x: Pid, p: nat, size: nat, asked: nat, ro: bool, mediumFree: bool, s: LockState, s': LockState)
    requires vm.DataLock(x, p, size, asked, ro, mediumFree, s, s')
    ensures vm.DataLock(x, p, size, asked, ro, false, s, s')
  {
    hide BaseVAlloc.Taken, BaseVAlloc.SmallestFor, BaseVAlloc.DataFitting;
  }

  /** What is below shows through both layers. */
  lemma BackedIs(vm: BaseVAlloc, v: View)
    requires vm.Valid() && v.pool == vm.store[..] && v.flat.mem == vm.mem && v.state == vm.State()
    ensures Backed(v)
  {
    hide BaseVAlloc.Coupled, AllHeld, BigActive, AllAgree, Disjoint;
    vm.Parts();
    forall a | 0 <= a < |v.pool|
      ensures v.pool[a] == v.flat.mem[a] || DirtyAt(v.state.held, a) || DirtyAt(v.state.cached, a)
    {
      assert vm.store[..][a] == vm.base[a] || DirtyAt(vm.cached, a);
      assert vm.base[a] == vm.mem[a] || DirtyAt(vm.held, a);
    }
  }

  lemma SameShapeFrom(before: map<Pid, Window>, after: map<Pid, Window>)
    requires SameShape(before, after)
    ensures PlacedFrom(before, after, {})
  {
  }

  lemma OneStoredFrom(before: map<Pid, Window>, after: map<Pid, Window>, x: Pid)
    requires x in before && x in after && after == before[x := after[x]] && after[x].start == before[x].start
    ensures PlacedFrom(before, after, {})
  {
  }

  lemma SameHeldFrom(s: LockState, s': LockState)
    requires s'.held == s.held
    ensures PlacedFrom(s.held, s'.held, {}) && LocksKeep(s, s')
  {
  }

  lemma SameShapeKeeps(s: LockState, s': LockState)
    requires SameShape(s.held, s'.held)
    ensures LocksKeep(s, s')
  {
  }

  // --- what a caller can check before it asks ---

  /** Whether a write leaves enough room in each locked page that it ends in. */
  method CanWrite(vm: BaseVAlloc, p: nat, n: nat) returns (b: bool)
    requires vm.Valid()
    ensures b <==> vm.WriteFits(p, n)
  {
    hide BaseVAlloc.Valid, BaseVAlloc.WriteFits;
    var c := 0;
    while c < 3
      invariant 0 <= c <= 3
      invariant forall d :: 0 <= d < c ==> WriteFitsIn(vm, d, p, n)
    {
      b := CanWriteIn(vm, c, p, n);
      if !b {
        NotAll(vm, c, p, n);
        return;
      }
      c := c + 1;
    }
    All(vm, p, n);
    b := true;
  }

  ghost predicate WriteFitsIn(vm: BaseVAlloc, c: nat, p: nat, n: nat)
    reads vm`held
  {
    forall x :: x in vm.held && x.c == c ==> FitsPage(vm, x, p, n)
  }

  ghost predicate FitsPage(vm: BaseVAlloc, x: Pid, p: nat, n: nat)
    reads vm`held
  {
    x in vm.held && (p < vm.held[x].start < p + n ==> p + n - vm.held[x].start <= vm.PageSize(x.c))
  }

  lemma NotAll(vm: BaseVAlloc, c: nat, p: nat, n: nat)
    requires !WriteFitsIn(vm, c, p, n)
    ensures !vm.WriteFits(p, n)
  {
  }

  lemma All(vm: BaseVAlloc, p: nat, n: nat)
    requires vm.Valid() && forall c :: 0 <= c < 3 ==> WriteFitsIn(vm, c, p, n)
    ensures vm.WriteFits(p, n)
  {
    hide BaseVAlloc.Valid;
    vm.HeldCounted();
    forall x | x in vm.held
      ensures FitsPage(vm, x, p, n)
    {
      assert WriteFitsIn(vm, x.c, p, n);
    }
  }

  method CanWriteIn(vm: BaseVAlloc, c: nat, p: nat, n: nat) returns (b: bool)
    requires vm.Valid() && c < 3
    ensures b <==> WriteFitsIn(vm, c, p, n)
  {
    hide BaseVAlloc.Valid, BaseVAlloc.CacheOk, LayerOk, AllHeld, FitsPage;
    ghost var m := 0;
    vm.LockWalk(c, 0);
    var i := vm.info.Of(c).lockedIndex;
    while i != -1
      invariant 0 <= m <= |vm.locked.Of(c)| && i == At(vm.locked.Of(c), m)
      invariant forall l :: 0 <= l < m ==> FitsPage(vm, Pid(c, vm.locked.Of(c)[l]), p, n)
      decreases |vm.locked.Of(c)| - m
    {
      vm.LockWalk(c, m);
      var pg := vm.info.Of(c).pages[i];
      CheckPage(vm, Pid(c, i), p, n);
      if p < pg.start < p + n && p + n - pg.start > vm.PageSize(c) {
        return false;
      }
      i := pg.next;
      m := m + 1;
    }
    vm.LockWalk(c, m);
    vm.Parts();
    vm.Listed0(c);
    return true;
  }

  lemma CheckPage(vm: BaseVAlloc, x: Pid, p: nat, n: nat)
    requires vm.HeldFacts(x)
    ensures FitsPage(vm, x, p, n) <==> !(p < vm.info.Page(x).start < p + n && p + n - vm.info.Page(x).start > vm.PageSize(x.c))
  {
  }

  /** Whether a page may be given back: a big page held whole must not overlap one that is free. */
  method CanRelease(vm: BaseVAlloc, x: Pid) returns (b: bool)
    requires vm.Valid() && x in vm.held
    ensures b <==> vm.Clearance(x)
  {
    hide BaseVAlloc.Valid, BaseVAlloc.CacheOk, LayerOk, AllHeld, BaseVAlloc.IdleFacts;
    vm.Parts();
    HeldRecord(vm, x);
    if x.c != BIG || vm.info.Page(x).size != vm.bigPool.Length1 {
      return true;
    }
    var start, size := vm.info.Page(x).start, vm.bigPool.Length1;
    ghost var n := 0;
    vm.Walk(0);
    var i := vm.info.big.freeIndex;
    while i != -1
      invariant 0 <= n <= |vm.free.big| && i == At(vm.free.big, n)
      invariant forall m :: 0 <= m < n && vm.free.big[m] in vm.cached ==> vm.Far(vm.cached[vm.free.big[m]].start, start)
      decreases |vm.free.big| - n
    {
      vm.Walk(n);
      IdleRecord(vm, i);
      var pg := vm.info.big.pages[i];
      if pg.start != 0 && !vm.Far(pg.start, start) {
        return false;
      }
      i := pg.next;
      n := n + 1;
    }
    vm.Walk(n);
    NoneNear(vm, x, start, n);
    return true;
  }

  lemma NoneNear(vm: BaseVAlloc, x: Pid, start: nat, n: nat)
    requires vm.Valid() && x in vm.held && vm.held[x].start == start && n <= |vm.free.big| && At(vm.free.big, n) == -1
    requires forall m :: 0 <= m < n && vm.free.big[m] in vm.cached ==> vm.Far(vm.cached[vm.free.big[m]].start, start)
    ensures vm.Clearance(x)
  {
    hide BaseVAlloc.Valid, BaseVAlloc.CacheOk, LayerOk, AllHeld;
    vm.Parts();
    vm.AllCachedListed();
    vm.Walk(n);
    forall j | j in vm.cached
      ensures vm.Far(vm.cached[j].start, start)
    {
      var m :| 0 <= m < |vm.free.big| && vm.free.big[m] == j;
    }
  }

  lemma HeldRecord(vm: BaseVAlloc, x: Pid)
    requires vm.Valid() && x in vm.held
    ensures vm.info.Has(x) && vm.info.Page(x).start == vm.held[x].start && vm.info.Page(x).size == |vm.held[x].data|
    ensures x in vm.counts && vm.info.Page(x).locks == vm.counts[x]
  {
    hide LayerOk, AllHeld, BigActive;
    vm.HeldFact(x);
  }

  lemma IdleRecord(vm: BaseVAlloc, i: int)
    requires vm.IdleFacts(i)
    ensures 0 <= i < |vm.info.big.pages| && (vm.info.big.pages[i].start != 0 <==> i in vm.cached)
    ensures i in vm.cached ==> vm.cached[i].start == vm.info.big.pages[i].start
  {
  }

  /** Whether one more lock may be counted on the page that holds `p`. */
  method CanLock(vm: BaseVAlloc, p: nat) returns (b: bool)
    requires vm.Valid()
    ensures b <==> forall y :: y in vm.held && vm.held[y].Covers(p) ==> y in vm.counts && vm.counts[y] < 255
  {
    hide BaseVAlloc.Valid, BaseVAlloc.CacheOk, LayerOk, AllHeld;
    vm.Parts();
    var found, x := vm.FindLockedPage(p);
    if !found {
      return true;
    }
    HeldRecord(vm, x);
    OnlyCover(vm, x, p);
    b := vm.info.Page(x).locks < 255;
  }

  /** Whether a data lock of `size` bytes may be made at `p`: not inside another lock, nor
      where a larger one starts, and one more lock may be counted. */
  method CanDataLock(vm: BaseVAlloc, p: nat, size: nat) returns (b: bool)
    requires vm.Valid()
    ensures b <==> Clear(p, size, vm.held, vm.counts) && forall y :: y in vm.held && vm.held[y].Covers(p) ==> y in vm.counts && vm.counts[y] < 255
  {
    hide BaseVAlloc.Valid, BaseVAlloc.CacheOk, LayerOk, AllHeld;
    vm.Parts();
    var found, x := vm.FindLockedPage(p);
    if !found {
      return true;
    }
    HeldRecord(vm, x);
    OnlyCover(vm, x, p);
    var pg := vm.info.Page(x);
    b := pg.locks < 255 && (pg.locks == 0 || (pg.start == p && pg.size <= size));
  }

  // --- the run ---

  class Session {
    const vm: BaseVAlloc
    var grants: seq<Grant>
    var places: seq<Place>

    /** The flat memory this session stands for. */
    ghost function Flatten(): Flat
      reads this, vm`mem
    {
      Flat(vm.mem, grants)
    }

    ghost predicate Valid()
      reads this, vm, vm.store, vm.smallPool, vm.mediumPool, vm.bigPool
    {
      && vm.Valid() && |vm.mem| == vm.store.Length == vm.poolSize
      && AllShow(vm.State(), grants, places) && Counted(vm.counts, grants, places)
    }

    /** This moment of the run. */
    ghost function Now(): View
      reads this, vm`mem, vm`held, vm`cached, vm`counts, vm.store
    {
      View(Flatten(), places, vm.State(), vm.store[..])
    }

    ghost predicate Allowed(op: Op)
      reads this, vm`mem, vm`held, vm`cached, vm`counts, vm.store
    {
      AllowedIn(vm, Now(), op)
    }

    /** What every operation leaves as it was. */
    ghost predicate Kept(v: View, out: Out)
      reads this, vm`mem, vm`held, vm`cached, vm`counts, vm.store
    {
      && (out == Skipped ==> Now() == v) && (out == Refused ==> vm.counts == v.state.counts)
      && v.places <= places && LocksHold(v.state, vm.State()) && NoneNewHeld(v, Now())
    }

    lemma KeptAll(out: Out)
      requires out != Refused
      ensures Kept(Now(), out)
    {
    }

    lemma KeptLocks(v: View, out: Out)
      requires v.places == places && v.state.counts == vm.counts && LocksKeep(v.state, vm.State())
      requires PlacedFrom(v.state.held, vm.held, {}) && out != Skipped
      ensures Kept(v, out)
    {
    }

    lemma KeptGrown(v: View, out: Out)
      requires v.places == places && v.state.counts == vm.counts && LocksGrow(v.state.held, vm.held, v.state.counts)
      requires PlacedFrom(v.state.held, vm.held, {}) && out != Skipped
      ensures Kept(v, out)
    {
      LongerData(v.state.held, vm.held, v.state.counts);
    }

    lemma KeptOneMore(v: View, out: Out, at: Place)
      requires places == v.places + [at] && PlacedFrom(v.state.held, vm.held, {at.page}) && out != Skipped && out != Refused
      requires LocksKeep(v.state, vm.State()) || LocksGrow(v.state.held, vm.held, v.state.counts)
      requires vm.counts.Keys == v.state.counts.Keys
      ensures Kept(v, out)
    {
      if LocksGrow(v.state.held, vm.held, v.state.counts) {
        LongerData(v.state.held, vm.held, v.state.counts);
      }
    }

    lemma KeptReleased(v: View, out: Out, x: Pid)
      requires v.places == places && GivenBack(x, vm.bigPool.Length1, v.state, vm.State()) && out != Skipped && out != Refused
      ensures Kept(v, out)
    {
      hide NoNewWindows;
    }

    /** An allocator that has been started, and no locks. */
    constructor (vm: BaseVAlloc)
      requires vm.Valid() && forall x :: x in vm.counts ==> vm.counts[x] == 0
      ensures this.vm == vm && Valid() && Flatten() == Flat(vm.mem, [])
    {
      this.vm := vm;
      grants, places := [], [];
      new;
      hide BaseVAlloc.Valid;
      vm.HeldCounted();
    }

    /** What does not move locks keeps the session. */
    twostate lemma StillValid()
      requires old(Valid()) && vm.Valid() && grants == old(grants) && places == old(places) && |vm.mem| == old(|vm.mem|)
      requires vm.counts == old(vm.counts) && LocksKeep(old(vm.State()), vm.State())
      ensures Valid()
    {
      hide BaseVAlloc.Valid, PagesKeep, Shows;
      forall k | 0 <= k < |grants| && grants[k].open
        ensures Shows(vm.State(), places[k].page, places[k].offset, grants[k].size, grants[k].p, grants[k].ro)
      {
        ShownIsCounted(old(vm.State()), places[k].page, places[k].offset, grants[k].size, grants[k].p, grants[k].ro);
        ShowsStill(old(vm.State()), vm.State(), places[k].page, places[k].offset, grants[k].size, grants[k].p, grants[k].ro);
      }
    }

    method DoRead(p: nat, n: nat) returns (out: Out)
      requires Valid()
      modifies vm`info, vm`cached, vm`nextPageToSwap, vm`base, vm.store, vm.bigPool
      ensures Valid() && Means(old(Flatten()), Read(p, n), out, Flatten())
      ensures !out.Refused? && !out.Locked? && (out == Skipped <==> !old(Allowed(Read(p, n))))
      ensures Kept(old(Now()), out)
    {
      hide BaseVAlloc.Valid, Slice, PagesKeep, Counted, AllShow, Shows, Kept, HeldFrom, PlacedFrom;
      ghost var v := Now();
      KeptAll(Skipped);
      FreeIndex(vm);
      if p == 0 || n == 0 || n > vm.bigPool.Length1 || p + n > vm.poolSize || vm.info.big.freeIndex == -1 {
        return Skipped;
      }
      var x, offset := vm.Read(p, n);
      SameHeldShow(v.state, vm.State(), grants, places);
      SameHeldFrom(v.state, vm.State());
      out := Bytes(Slice(vm.Pool(x.c), x.i, offset, n));
      KeptLocks(v, out);
      return;
    }

    method DoWrite(p: nat, d: seq<byte>) returns (out: Out)
      requires Valid()
      modifies vm`info, vm`cached, vm`nextPageToSwap, vm`held, vm`counts, vm`base, vm`mem
      modifies vm.store, vm.smallPool, vm.mediumPool, vm.bigPool
      ensures Valid() && Means(old(Flatten()), Write(p, d), out, Flatten())
      ensures !out.Refused? && !out.Locked? && (out == Skipped <==> !old(Allowed(Write(p, d))))
      ensures Kept(old(Now()), out)
    {
      hide BaseVAlloc.Valid, PagesKeep, Counted, AllShow, Shows, SameShape, Stored, Kept, HeldFrom, PlacedFrom, BaseVAlloc.FitsIn, BaseVAlloc.BigUnlocked;
      ghost var v := Now();
      KeptAll(Skipped);
      FreeIndex(vm);
      if p == 0 || d == [] || |d| > vm.bigPool.Length1 || p + |d| > vm.poolSize || vm.info.big.freeIndex == -1 {
        return Skipped;
      }
      var fits := CanWrite(vm, p, |d|);
      if !fits {
        return Skipped;
      }
      ghost var m := vm.mem;
      vm.Write(p, d);
      StoredSize(m, p, d, vm.mem);
      SameShapeKeeps(old(vm.State()), vm.State());
      StillValid();
      SameShapeFrom(v.state.held, vm.held);
      KeptLocks(v, Ok);
      return Ok;
    }

    method DoFlush(clear: bool) returns (out: Out)
      requires Valid()
      modifies vm`info, vm`cached, vm.store
      ensures Valid() && Means(old(Flatten()), if clear then ClearPages else Flush, out, Flatten())
      ensures out == Ok && old(Allowed(if clear then ClearPages else Flush))
      ensures Kept(old(Now()), out) && WrittenBack(if clear then ClearPages else Flush, old(Now()), Now())
    {
      hide BaseVAlloc.Valid, PagesKeep, Counted, AllShow, Shows, Kept, HeldFrom, PlacedFrom;
      ghost var v := Now();
      KeptAll(Skipped);
      if clear {
        vm.ClearPages();
      } else {
        vm.Flush();
      }
      SameHeldShow(v.state, vm.State(), grants, places);
      SameHeldFrom(v.state, vm.State());
      KeptLocks(v, Ok);
      return Ok;
    }

    method DoLock(p: nat, want: nat, ro: bool) returns (out: Out)
      requires Valid()
      modifies this`grants, this`places, vm`info, vm`nextPageToSwap, vm`free, vm`locked, vm`cached, vm`held, vm`counts, vm`base
      modifies vm.store, vm.smallPool, vm.mediumPool, vm.bigPool
      ensures Valid() && Means(old(Flatten()), MakeLock(p, want, ro), out, Flatten())
      ensures out == Skipped <==> !old(Allowed(MakeLock(p, want, ro)))
      ensures out == Refused ==> RefusedIn(vm, old(vm.counts), MakeLock(p, want, ro))
      ensures Kept(old(Now()), out) && (out.Locked? ==> LockedAs(vm, old(Now()), MakeLock(p, want, ro), out.size, Now()))
    {
      hide BaseVAlloc.Valid, PagesKeep, Counted, AllShow, Slice, LocksStay, NoNewWindows, Kept, HeldFrom, PlacedFrom, BaseVAlloc.FittingLock;
      ghost var v := Now();
      KeptAll(Skipped);
      if p == 0 || want == 0 || p + Min(want, vm.bigPool.Length1) > vm.poolSize {
        return Skipped;
      }
      var may := CanLock(vm, p);
      if !may {
        return Skipped;
      }
      ghost var s := vm.State();
      var ok, x, offset, size := vm.MakeFittingLock(p, want, ro);
      StayIsKeep(s, vm.State());
      if !ok {
        StillShow(s, vm.State(), grants, places);
        FromHeld(v.state.held, vm.held, {});
        KeptLocks(v, Refused);
        return Refused;
      }
      StillShow(s, vm.State(), grants, places);
      CountedMore(s.counts, grants, places, Grant(p, size, ro, true), Place(x, offset));
      ShowMore(vm.State(), grants, places, Grant(p, size, ro, true), Place(x, offset));
      grants, places := grants + [Grant(p, size, ro, true)], places + [Place(x, offset)];
      FromHeld(v.state.held, vm.held, {x});
      KeptOneMore(v, Locked(size), Place(x, offset));
      return Locked(size);
    }

    method DoDataLock(p: nat, size: nat, ro: bool) returns (out: Out)
      requires Valid()
      modifies this`grants, this`places, vm`info, vm`nextPageToSwap, vm`free, vm`locked, vm`cached, vm`held, vm`counts, vm`base
      modifies vm.store, vm.smallPool, vm.mediumPool, vm.bigPool
      ensures Valid() && Means(old(Flatten()), MakeDataLock(p, size, ro), out, Flatten())
      ensures out == Skipped <==> !old(Allowed(MakeDataLock(p, size, ro)))
      ensures out == Refused ==> RefusedIn(vm, old(vm.counts), MakeDataLock(p, size, ro))
      ensures Kept(old(Now()), out) && (out.Locked? ==> LockedAs(vm, old(Now()), MakeDataLock(p, size, ro), out.size, Now()))
    {
      hide BaseVAlloc.Valid, Counted, AllShow, Slice, LocksGrow, NoNewWindows, Clear, BaseVAlloc.DataLock, BaseVAlloc.NoneFit, BaseVAlloc.Clearance, Kept, HeldFrom, PlacedFrom, PagesKeep;
      ghost var v := Now();
      KeptAll(Skipped);
      if p == 0 || size == 0 || size > vm.bigPool.Length1 || p + size > vm.poolSize {
        return Skipped;
      }
      var may := CanDataLock(vm, p, size);
      if !may {
        return Skipped;
      }
      ghost var s := vm.State();
      var ok, x := vm.MakeDataLock(p, size, ro);
      GrowShow(s, vm.State(), grants, places);
      if !ok {
        FromHeld(v.state.held, vm.held, {});
        KeptGrown(v, Refused);
        return Refused;
      }
      HeldRecord(vm, x);
      var granted := vm.info.Page(x).size;
      CountedMore(s.counts, grants, places, Grant(p, granted, ro, true), Place(x, 0));
      ShowMore(vm.State(), grants, places, Grant(p, granted, ro, true), Place(x, 0));
      grants, places := grants + [Grant(p, granted, ro, true)], places + [Place(x, 0)];
      FromHeld(v.state.held, vm.held, {x});
      LargerToo(vm, x, p, granted, size, ro, old(vm.free).Of(MEDIUM) != [], v.state, vm.State());
      KeptOneMore(v, Locked(granted), Place(x, 0));
      return Locked(granted);
    }

    method DoStore(k: nat, off: nat, d: seq<byte>) returns (out: Out)
      requires Valid()
      modifies vm.smallPool, vm.mediumPool, vm.bigPool, vm`held, vm`mem
      ensures Valid() && Means(old(Flatten()), Store(k, off, d), out, Flatten())
      ensures !out.Refused? && !out.Locked? && (out == Skipped <==> !old(Allowed(Store(k, off, d))))
      ensures Kept(old(Now()), out)
    {
      hide BaseVAlloc.Valid, PagesKeep, Counted, AllShow, Stored, Kept, HeldFrom, PlacedFrom;
      ghost var v := Now();
      KeptAll(Skipped);
      if k >= |grants| || !grants[k].open || grants[k].ro || off + |d| > grants[k].size {
        return Skipped;
      }
      ShowsThis(k);
      var x, offset := places[k].page, places[k].offset;
      ghost var m := vm.mem;
      vm.StoreLocked(x, offset + off, d);
      StoredSize(m, grants[k].p + off, d, vm.mem);
      OneStored(old(vm.State()), vm.State(), x);
      StillValid();
      OneStoredFrom(v.state.held, vm.held, x);
      KeptLocks(v, Ok);
      return Ok;
    }

    lemma ShowsThis(k: nat)
      requires Valid() && k < |grants| && grants[k].open
      ensures k < |places| == |grants| && Shows(vm.State(), places[k].page, places[k].offset, grants[k].size, grants[k].p, grants[k].ro)
    {
      hide BaseVAlloc.Valid;
    }

    method DoFetch(k: nat, off: nat, n: nat) returns (out: Out)
      requires Valid()
      ensures Means(Flatten(), Fetch(k, off, n), out, Flatten())
      ensures !out.Refused? && !out.Locked? && (out == Skipped <==> !Allowed(Fetch(k, off, n)))
      ensures Kept(Now(), out)
    {
      hide BaseVAlloc.Valid, PagesKeep, Counted, AllShow, Slice, Kept;
      KeptAll(Skipped);
      if k >= |grants| || !grants[k].open || off + n > grants[k].size {
        return Skipped;
      }
      ShowsThis(k);
      var x, offset := places[k].page, places[k].offset;
      vm.LockShows(x, offset + off, n);
      out := Bytes(Slice(vm.Pool(x.c), x.i, offset + off, n));
      KeptAll(out);
    }

    method DoRelease(k: nat) returns (out: Out)
      requires Valid()
      modifies this`grants, vm`info, vm`nextPageToSwap, vm`free, vm`locked, vm`cached, vm`held, vm`counts, vm`base
      modifies vm.store, vm.bigPool
      ensures Valid() && Means(old(Flatten()), Release(k), out, Flatten())
      ensures !out.Refused? && !out.Locked? && (out == Skipped <==> !old(Allowed(Release(k))))
      ensures Kept(old(Now()), out)
    {
      hide BaseVAlloc.Valid, PagesKeep, Counted, AllShow, ClearAt, Kept;
      KeptAll(Skipped);
      if k >= |grants| || !grants[k].open {
        return Skipped;
      }
      ShowsThis(k);
      var x := places[k].page;
      HeldRecord(vm, x);
      if vm.info.Page(x).locks == 1 {
        var may := CanRelease(vm, x);
        if !may {
          return Skipped;
        }
      }
      LetGo(k);
      return Ok;
    }

    /** Lock `k` goes, and every other one stays. */
    method LetGo(k: nat)
      requires Valid() && k < |grants| && grants[k].open && k < |places| && MayGo(vm, vm.State(), places[k].page)
      modifies this`grants, vm`info, vm`nextPageToSwap, vm`free, vm`locked, vm`cached, vm`held, vm`counts, vm`base
      modifies vm.store, vm.bigPool
      ensures Valid() && grants == old(grants)[k := old(grants)[k].(open := false)]
      ensures Kept(old(Now()), Ok)
    {
      hide BaseVAlloc.Valid, BaseVAlloc.LastGiven, BaseVAlloc.UpperOk, BaseVAlloc.Clearance, GivenBack, PagesKeep, Counted, AllShow, ClearAt, Kept;
      ghost var v, x := Now(), places[k].page;
      ShowsThis(k);
      OnlyCover(vm, x, grants[k].p);
      MayGoIs(vm, x);
      ghost var y := vm.ReleaseLock(grants[k].p);
      GivenTo(vm, x, y, grants[k].p, v.state, vm.State());
      GivenCounts(x, vm.bigPool.Length1, v.state, vm.State());
      CountedLess(v.state.counts, grants, places, k);
      ReleasedShow(v.state, vm.State(), grants, places, k, vm.bigPool.Length1);
      grants := grants[k := grants[k].(open := false)];
      KeptReleased(v, Ok, x);
    }

    /** Every operation is a step of the flat memory. */
    method Do(op: Op) returns (out: Out)
      requires Valid()
      modifies this`grants, this`places, vm, vm.store, vm.smallPool, vm.mediumPool, vm.bigPool
      ensures Valid() && Steps(vm, old(Now()), op, out, Now())
    {
      hide Valid, Means, Kept, RefusedIn, LockedAs, AllowedIn, Steps;
      ghost var v := Now();
      match op {
        case Read(p, n) => out := DoRead(p, n);
        case Write(p, d) => out := DoWrite(p, d);
        case Flush => out := DoFlush(false);
        case ClearPages => out := DoFlush(true);
        case MakeLock(p, want, ro) => out := DoLock(p, want, ro);
        case MakeDataLock(p, size, ro) => out := DoDataLock(p, size, ro);
        case Store(k, off, d) => out := DoStore(k, off, d);
        case Fetch(k, off, n) => out := DoFetch(k, off, n);
        case Release(k) => out := DoRelease(k);
      }
      IsStep(v, op, out);
    }

    lemma IsStep(v: View, op: Op, out: Out)
      requires Valid() && Means(v.flat, op, out, Flatten()) && Kept(v, out)
      requires out == Skipped <==> !AllowedIn(vm, v, op)
      requires out == Refused ==> RefusedIn(vm, v.state.counts, op)
      requires (out.Locked? ==> LockedAs(vm, v, op, out.size, Now())) && WrittenBack(op, v, Now())
      ensures Steps(vm, v, op, out, Now())
    {
      hide BaseVAlloc.Valid, Means, AllowedIn, RefusedIn, LockedAs, WrittenBack, Backed, AllShow, Counted, LocksHold, NoneNewHeld;
      BackedIs(vm, Now());
    }

    /** And every run is a run of the flat memory. */
    method Run(ops: seq<Op>) returns (outs: seq<Out>, ghost trace: seq<View>)
      requires Valid()
      modifies this`grants, this`places, vm, vm.store, vm.smallPool, vm.mediumPool, vm.bigPool
      ensures Valid() && Explains(vm, trace, ops, outs)
      ensures trace[0] == old(Now()) && trace[|ops|] == Now() && old(places) <= places
    {
      hide Valid, Steps;
      outs, trace := [], [Now()];
      var i := 0;
      while i < |ops|
        invariant 0 <= i <= |ops| && Valid() && Explains(vm, trace, ops[..i], outs)
        invariant trace[0] == old(Now()) && trace[i] == Now() && old(places) <= places
      {
        ghost var v := Now();
        var out := Do(ops[i]);
        PlacesStay(vm, v, ops[i], out, Now());
        OneMore(vm, trace, ops, i, outs, out, Now());
        outs, trace := outs + [out], trace + [Now()];
        i := i + 1;
      }
      assert ops[..i] == ops;
    }
  }

  lemma PlacesStay(vm: BaseVAlloc, v: View, op: Op, out: Out, v': View)
    requires Steps(vm, v, op, out, v')
    ensures v.places <= v'.places
  {
  }

  lemma OneMore(vm: BaseVAlloc, trace: seq<View>, ops: seq<Op>, i: nat, outs: seq<Out>, out: Out, v: View)
    requires i < |ops| && Explains(vm, trace, ops[..i], outs) && Steps(vm, trace[i], ops[i], out, v)
    ensures Explains(vm, trace + [v], ops[..i + 1], outs + [out])
  {
    hide Steps;
    forall j | 0 <= j < i + 1
      ensures Steps(vm, (trace + [v])[j], ops[..i + 1][j], (outs + [out])[j], (trace + [v])[j + 1])
    {
      if j < i {
        assert Steps(vm, trace[j], ops[..i][j], outs[j], trace[j + 1]);
      }
    }
  }

  lemma StillShow(s: LockState, s': LockState, grants: seq<Grant>, places: seq<Place>)
    requires AllShow(s, grants, places) && LocksKeep(s, s')
    requires forall x :: x in s.counts ==> x in s'.counts && s'.counts[x] >= s.counts[x]
    ensures AllShow(s', grants, places)
  {
  }

  lemma GrowShow(s: LockState, s': LockState, grants: seq<Grant>, places: seq<Place>)
    requires AllShow(s, grants, places) && LocksGrow(s.held, s'.held, s.counts)
    requires forall x :: x in s.counts ==> x in s'.counts && s'.counts[x] >= s.counts[x]
    ensures AllShow(s', grants, places)
  {
    forall k | 0 <= k < |grants| && grants[k].open
      ensures Shows(s', places[k].page, places[k].offset, grants[k].size, grants[k].p, grants[k].ro)
    {
      var x := places[k].page;
      assert s.held[x].data <= s'.held[x].data;
    }
  }

  lemma ShowMore(s: LockState, grants: seq<Grant>, places: seq<Place>, g: Grant, at: Place)
    requires AllShow(s, grants, places) && Shows(s, at.page, at.offset, g.size, g.p, g.ro)
    ensures AllShow(s, grants + [g], places + [at])
  {
    hide Shows;
  }

  lemma OneStored(s: LockState, s': LockState, x: Pid)
    requires x in s.held && x in s'.held && s'.held == s.held[x := s'.held[x]]
    requires s'.held[x].start == s.held[x].start && |s'.held[x].data| == |s.held[x].data| && s'.held[x].dirty
    ensures LocksKeep(s, s')
  {
  }

  lemma OnlyCover(vm: BaseVAlloc, x: Pid, p: nat)
    requires vm.Valid() && x in vm.held && vm.held[x].Covers(p)
    ensures forall y :: y in vm.held && vm.held[y].Covers(p) ==> y == x
  {
    hide BaseVAlloc.Valid, LayerOk;
    vm.Parts();
    forall y | y in vm.held && vm.held[y].Covers(p)
      ensures y == x
    {
      vm.OneCovers(x, y, p);
    }
  }

  lemma MayGoIs(vm: BaseVAlloc, x: Pid)
    requires MayGo(vm, vm.State(), x)
    ensures vm.MayRelease(x)
  {
    hide ClearAt;
  }

  lemma GivenTo(vm: BaseVAlloc, x: Pid, y: Pid, p: nat, s: LockState, s': LockState)
    requires vm.LastGiven(y, p, s, s') && forall z :: z in s.held && s.held[z].Covers(p) ==> z == x
    ensures y == x && GivenBack(x, vm.bigPool.Length1, s, s')
  {
    hide NoNewWindows;
  }

  lemma GivenCounts(x: Pid, size: nat, s: LockState, s': LockState)
    requires GivenBack(x, size, s, s')
    ensures x in s.counts && s.counts[x] > 0 && s'.counts == s.counts[x := s.counts[x] - 1]
  {
    hide NoNewWindows;
  }

  /** Giving back lock `k` leaves what the other locks show. */
  lemma ReleasedShow(s: LockState, s': LockState, grants: seq<Grant>, places: seq<Place>, k: nat, size: nat)
    requires AllShow(s, grants, places) && Counted(s.counts, grants, places) && k < |grants| && grants[k].open
    requires GivenBack(places[k].page, size, s, s')
    ensures AllShow(s', grants[k := grants[k].(open := false)], places)
  {
    hide NoNewWindows;
    CountedLess(s.counts, grants, places, k);
    var grants' := grants[k := grants[k].(open := false)];
    forall j | 0 <= j < |grants| && grants'[j].open
      ensures Shows(s', places[j].page, places[j].offset, grants'[j].size, grants'[j].p, grants'[j].ro)
    {
      assert Shows(s, places[j].page, places[j].offset, grants[j].size, grants[j].p, grants[j].ro);
      assert j in On(grants', places, places[j].page);
    }
  }

  lemma ShownIsCounted(s: LockState, x: Pid, offset: nat, n: nat, p: nat, ro: bool)
    requires Shows(s, x, offset, n, p, ro)
    ensures x in s.counts && s.counts[x] > 0 && x in s.held
  {
  }

  lemma SameHeldShow(s: LockState, s': LockState, grants: seq<Grant>, places: seq<Place>)
    requires AllShow(s, grants, places) && s'.held == s.held && s'.counts == s.counts
    ensures AllShow(s', grants, places)
  {
  }

  lemma FreeIndex(vm: BaseVAlloc)
    requires vm.Valid()
    ensures vm.info.big.freeIndex == -1 <==> vm.free.big == []
    ensures vm.info.big.freeIndex == -1 <==> !vm.BigUnlocked(vm.counts)
  {
    hide LayerOk, AllHeld, BigActive, BaseVAlloc.CacheOk, BaseVAlloc.BigUnlocked;
    vm.FreeIsUnlocked();
    vm.Walk(0);
    if vm.free.big != [] {
      FirstIndex(vm);
    }
  }

  lemma FirstIndex(vm: BaseVAlloc)
    requires vm.CacheOk() && vm.free.big != []
    ensures vm.free.big[0] >= 0
  {
    hide BaseVAlloc.CacheOk;
    vm.Walk(0);
  }

  /** A started allocator over any pool begins a run whose flat memory is the pool. */
  method Boot(pool: array<byte>, smallCount: nat, smallSize: nat, mediumCount: nat, mediumSize: nat, bigCount: nat, bigSize: nat)
    returns (s: Session)
    requires 16 <= smallSize <= mediumSize <= bigSize < PAGE_LIMIT
    requires 1 <= smallCount <= 127 && 1 <= mediumCount <= 127 && 1 <= bigCount <= 127
    requires pool.Length + bigSize <= WORD
    ensures fresh(s) && fresh(s.vm) && s.vm.store == pool && s.vm.free.big != []
    ensures s.Valid() && s.Flatten() == Flat(pool[..], [])
  {
    hide BaseVAlloc.Valid;
    var vm := new BaseVAlloc(pool, smallCount, smallSize, mediumCount, mediumSize, bigCount, bigSize);
    vm.Start();
    s := new Session(vm);
  }
}
