/** Copying, filling and comparing virtual memory chunk by chunk, each chunk as large as the
    locks granted for it. */
module VPtrUtils {
  import opened Layers
  import opened PageState
  import opened BaseAlloc

  // --- what one call on plain memory does ---

  datatype Kind = Mem | Str

  /** How many of the bytes `s` are copied: all, or up to the first zero and with it. */
  function Cut(kind: Kind, s: seq<byte>): (n: nat)
    ensures n <= |s| && (s != [] ==> n >= 1)
  {
    if kind == Mem then |s| else if s == [] then 0 else if s[0] == 0 then 1 else 1 + Cut(kind, s[1..])
  }

  lemma {:induction false} CutAt(kind: Kind, s: seq<byte>, n: nat)
    requires n <= |s|
    requires kind == Mem ==> n == |s|
    requires kind == Str ==> (forall k :: 0 <= k < n - 1 ==> s[k] != 0) && (n == |s| || (n > 0 && s[n - 1] == 0))
    ensures Cut(kind, s) == n
  {
    if kind == Str && n > 0 && s[0] != 0 {
      CutAt(kind, s[1..], n - 1);
    }
  }

  /** The order of two byte strings of the same length: that of the first bytes that differ.
      A string comparison also ends at a zero. */
  function Compare(kind: Kind, a: seq<byte>, b: seq<byte>): (r: int)
    requires |a| == |b|
  {
    if a == [] then 0
    else if a[0] != b[0] then a[0] - b[0]
    else if kind == Str && a[0] == 0 then 0
    else Compare(kind, a[1..], b[1..])
  }

  /** Whatever follows does not matter any more. */
  predicate Decided(kind: Kind, a: seq<byte>, b: seq<byte>)
    requires |a| == |b|
  {
    Compare(kind, a, b) != 0 || (kind == Str && 0 in a)
  }

  /** Comparing in two chunks is comparing in one, wherever the chunks meet. */
  lemma {:induction false} CompareChunks(kind: Kind, a: seq<byte>, b: seq<byte>, a': seq<byte>, b': seq<byte>)
    requires |a| == |b| && |a'| == |b'|
    ensures Compare(kind, a + a', b + b') == if Decided(kind, a, b) then Compare(kind, a, b) else Compare(kind, a', b')
    ensures Decided(kind, a + a', b + b') <==> Decided(kind, a, b) || Decided(kind, a', b')
    decreases |a|
  {
    if a == [] {
      assert a + a' == a' && b + b' == b';
    } else {
      assert (a + a')[1..] == a[1..] + a' && (b + b')[1..] == b[1..] + b';
      CompareChunks(kind, a[1..], b[1..], a', b');
      assert 0 in a <==> a[0] == 0 || 0 in a[1..];
    }
  }

  /** What a comparison says: the sign of the first difference, if one comes before a string ends. */
  lemma {:induction false} CompareMeans(kind: Kind, a: seq<byte>, b: seq<byte>) returns (k: nat)
    requires |a| == |b|
    ensures k <= |a| && a[..k] == b[..k] && (kind == Str ==> 0 !in a[..k])
    ensures if k == |a| then Compare(kind, a, b) == 0
            else Compare(kind, a, b) == a[k] as int - b[k] as int && (a[k] != b[k] || (kind == Str && a[k] == 0))
  {
    if a == [] || a[0] != b[0] || (kind == Str && a[0] == 0) {
      k := 0;
    } else {
      k := CompareMeans(kind, a[1..], b[1..]);
      k := k + 1;
      assert a[..k] == [a[0]] + a[1..][..k - 1] && b[..k] == [b[0]] + b[1..][..k - 1];
    }
  }

  // --- the operations the chunks are made of ---

  /** Copies bytes one by one, up to the first zero and with it. */
  method StrCopier(src: seq<byte>) returns (dest: seq<byte>, more: bool)
    ensures dest == src[..Cut(Str, src)]
    ensures more <==> src != [] && 0 !in src
  {
    if |src| == 0 {
      return [], false;
    }
    dest := [];
    var n := 0;
    while n < |src|
      invariant 0 <= n <= |src| && dest == src[..n]
      invariant forall k :: 0 <= k < n ==> src[k] != 0
    {
      dest := dest + [src[n]];
      n := n + 1;
      if src[n - 1] == 0 {
        CutAt(Str, src, n);
        return dest, false;
      }
    }
    CutAt(Str, src, n);
    more := true;
  }

  method Copier(kind: Kind, src: seq<byte>) returns (dest: seq<byte>, more: bool)
    ensures dest == src[..Cut(kind, src)]
    ensures more <==> kind == Mem || (src != [] && 0 !in src)
  {
    if kind == Mem {
      dest, more := src, true;
    } else {
      dest, more := StrCopier(src);
    }
  }

  /** Compares bytes one by one; `done` says that a string ended. */
  method Comparator(kind: Kind, a: seq<byte>, b: seq<byte>) returns (cmp: int, done: bool)
    requires |a| == |b|
    ensures cmp == Compare(kind, a, b)
    ensures (cmp != 0 || done) <==> Decided(kind, a, b)
  {
    cmp := StrnCmp(kind, a, b);
    done := false;
    if kind == Str && cmp == 0 {
      // the strings are equal so far: look whether they end here
      var n := 0;
      while n < |a| && a[n] != 0
        invariant 0 <= n <= |a| && forall k :: 0 <= k < n ==> a[k] != 0
      {
        n := n + 1;
      }
      done := n != |a|;
    }
  }

  /** memcmp and strncmp. */
  method StrnCmp(kind: Kind, a: seq<byte>, b: seq<byte>) returns (cmp: int)
    requires |a| == |b|
    ensures cmp == Compare(kind, a, b)
  {
    var n := 0;
    assert a[0..] == a && b[0..] == b;
    while n < |a|
      invariant 0 <= n <= |a| && Compare(kind, a, b) == Compare(kind, a[n..], b[n..])
    {
      if a[n] != b[n] {
        return a[n] as int - b[n] as int;
      }
      if kind == Str && a[n] == 0 {
        return 0;
      }
      assert a[n..][1..] == a[n + 1..] && b[n..][1..] == b[n + 1..];
      n := n + 1;
    }
    return 0;
  }

  // --- how large a chunk may be ---

  const PAGE_LIMIT := 0x1_0000
  const WORD := 0x1_0000_0000

  /** The difference of two addresses as a 32 bit int. */
  function PtrDiff(p1: nat, p2: nat): int {
    var d := (p2 - p1) % WORD;
    if d < WORD / 2 then d else d - WORD
  }

  /** The bound for two virtual pointers of the same type: their distance, cut to 16 bits. */
  function MaxLockSize(pageSize: nat, p1: nat, p2: nat): nat {
    var d := PtrDiff(p1, p2);
    Min(pageSize, (if d < 0 then -d else d) % PAGE_LIMIT)
  }

  /** The bound is zero, and no chunk makes progress, exactly when the distance is a multiple of 65536. */
  lemma NoProgress(pageSize: nat, p1: nat, p2: nat)
    requires pageSize >= 1
    ensures MaxLockSize(pageSize, p1, p2) == 0 <==> (p2 - p1) % PAGE_LIMIT == 0
  {
    var d := (p2 - p1) % WORD;
    var k := (p2 - p1) / WORD;
    assert p2 - p1 == d + k * WORD;
    assert (p2 - p1) % PAGE_LIMIT == d % PAGE_LIMIT by {
      ModShift(d, k * 0x1_0000);
    }
    if d >= WORD / 2 {
      var e := WORD - d;
      ModShift(-d, 0x1_0000);
      NegMod(d);
    }
  }

  /** For operands less than 65536 apart it is their distance, if that is less than a page. */
  lemma NearBound(pageSize: nat, p1: nat, p2: nat)
    requires -PAGE_LIMIT < p2 - p1 < PAGE_LIMIT
    ensures MaxLockSize(pageSize, p1, p2) == Min(pageSize, if p1 <= p2 then p2 - p1 else p1 - p2)
  {
    if p2 < p1 {
      assert (p2 - p1) % WORD == p2 - p1 + WORD;
    }
  }

  lemma ModShift(d: int, k: int)
    ensures (d + k * PAGE_LIMIT) % PAGE_LIMIT == d % PAGE_LIMIT
  {
    var q := d / PAGE_LIMIT;
    assert d + k * PAGE_LIMIT == (q + k) * PAGE_LIMIT + d % PAGE_LIMIT;
    DivUnique(q + k, d % PAGE_LIMIT);
  }

  lemma DivUnique(q: int, r: int)
    requires 0 <= r < PAGE_LIMIT
    ensures (q * PAGE_LIMIT + r) % PAGE_LIMIT == r
  {
  }

  lemma NegMod(d: int)
    ensures (-d) % PAGE_LIMIT == 0 <==> d % PAGE_LIMIT == 0
  {
  }

  /** No chunk of an operation on up to `size` bytes from `p` on asks for a lock past the end
      of the pool, if `len` bytes decide when it stops. */
  predicate InPool(p: nat, size: nat, len: nat, pageSize: nat, poolSize: nat) {
    len > 0 ==> p + Min(size, len - 1 + pageSize) <= poolSize
  }

  /** Chunks start at any of the `len` bytes, as locks may be granted in any sizes: this is
      exactly when none of them can ask for too much. */
  lemma ChunksInPool(p: nat, size: nat, len: nat, pageSize: nat, poolSize: nat)
    requires len <= size && pageSize >= 1
    ensures InPool(p, size, len, pageSize, poolSize) <==> forall t :: 0 <= t < len ==> ChunkEnd(p, t, size, pageSize) <= poolSize
  {
    if len > 0 && forall t :: 0 <= t < len ==> ChunkEnd(p, t, size, pageSize) <= poolSize {
      assert ChunkEnd(p, len - 1, size, pageSize) <= poolSize;
    }
  }

  /** Where the lock ends that is asked for at byte `t`. */
  function ChunkEnd(p: nat, t: nat, size: nat, pageSize: nat): nat
    requires t <= size
  {
    p + t + Min(pageSize, size - t)
  }

  /** A string of three bytes and its zero that ends ten bytes before the pool does: strcpy asks
      for a lock of 1024 bytes there. */
  lemma StringNearEnd()
    ensures !InPool(50, WORD - 1, 4, 1024, 64) && ChunkEnd(50, 0, WORD - 1, 1024) > 64
  {
  }

  /** Two strings 65536 bytes apart, which no chunk gets any further. */
  lemma StuckApart()
    ensures MaxLockSize(1024, 32, 32 + 65536) == 0
  {
  }

  // --- locks ---

  /** Pages locked by `k` keep their places; only a store through a lock changes what they hold. */
  ghost predicate PagesKeep(k: map<Pid, nat>, h: map<Pid, Window>, h': map<Pid, Window>) {
    forall x :: x in h && x in k && k[x] > 0 ==>
      x in h' && h'[x].start == h[x].start && |h'[x].data| == |h[x].data| && (h[x].dirty ==> h'[x].dirty)
  }

  ghost predicate LocksKeep(s: LockState, s': LockState) { PagesKeep(s.counts, s.held, s'.held) }

  lemma KeepThrough(k: map<Pid, nat>, h: map<Pid, Window>, h1: map<Pid, Window>, h2: map<Pid, Window>)
    requires PagesKeep(k, h, h1) && PagesKeep(k, h1, h2)
    ensures PagesKeep(k, h, h2)
  {
  }

  lemma KeepFewer(k: map<Pid, nat>, more: map<Pid, nat>, h: map<Pid, Window>, h': map<Pid, Window>)
    requires PagesKeep(more, h, h') && forall x :: x in k && k[x] > 0 ==> x in more && more[x] > 0
    ensures PagesKeep(k, h, h')
  {
  }

  lemma KeepGiven(x: Pid, size: nat, s: LockState, s': LockState)
    requires GivenBack(x, size, s, s')
    ensures PagesKeep(s'.counts, s.held, s'.held)
  {
  }

  /** What taking a lock of page `x` does. */
  ghost predicate Granted(x: Pid, size: nat, s: LockState, s': LockState) {
    && x in s.counts && s'.counts == s.counts[x := s.counts[x] + 1] && (s.counts[x] == 0 ==> ClearAt(x, s'.held, s'.cached, size))
    && LocksKeep(s, s') && NoNewWindows(s.cached, s'.cached)
  }

  /** Page `x`, which is locked, holds `n` bytes for the addresses from `p` on in its buffer from `offset` on. */
  ghost predicate Shows(s: LockState, x: Pid, offset: nat, n: nat, p: nat, ro: bool) {
    && x in s.held && x in s.counts && s.counts[x] > 0
    && s.held[x].start + offset == p && 1 <= n && offset + n <= |s.held[x].data| && (ro || s.held[x].dirty)
  }

  lemma ShowsStill(s: LockState, s': LockState, x: Pid, offset: nat, n: nat, p: nat, ro: bool)
    requires Shows(s, x, offset, n, p, ro) && LocksKeep(s, s') && x in s'.counts && s'.counts[x] > 0
    ensures Shows(s', x, offset, n, p, ro)
  {
  }

  method Grab(vm: BaseVAlloc, v: nat, s: nat, ro: bool) returns (x: Pid, offset: nat, size: nat)
    requires vm.Valid() && 1 <= v && 1 <= s && v + Min(s, vm.bigPool.Length1) <= vm.store.Length
    requires |vm.UnlockedPages()| >= 1 && vm.CountsBelow(255)
    modifies vm`info, vm`nextPageToSwap, vm`free, vm`locked, vm`cached, vm`held, vm`counts, vm`base
    modifies vm.store, vm.smallPool, vm.mediumPool, vm.bigPool
    ensures vm.Valid() && Shows(vm.State(), x, offset, size, v, ro) && 1 <= size <= s && size <= vm.bigPool.Length1
    ensures Granted(x, vm.bigPool.Length1, old(vm.State()), vm.State())
    ensures vm.FittingLock(x, v, size, s, ro, old(vm.State()), vm.State())
  {
    hide BaseVAlloc.Valid, Slice, NoNewWindows, LocksStay, LocksKeep, BaseVAlloc.UnlockedIn, BaseVAlloc.FittingLock;
    vm.HeldCounted();
    NotAllLocked(vm);
    ghost var before := vm.State();
    var ok;
    ok, x, offset, size := vm.MakeFittingLock(v, s, ro);
    StayIsKeep(before, vm.State());
  }

  lemma NotAllLocked(vm: BaseVAlloc)
    requires vm.Valid() && |vm.UnlockedPages()| >= 1
    ensures !(forall y :: vm.IsPage(y) ==> y in vm.counts && vm.counts[y] > 0)
  {
    hide BaseVAlloc.Valid;
    var y :| y in vm.UnlockedPages();
  }

  lemma StayIsKeep(before: LockState, after: LockState)
    requires LocksStay(before.held, after.held, before.counts)
    ensures LocksKeep(before, after)
  {
  }

  /** A lock, taken by the constructor and given back by Unlock. */
  class VPtrLock {
    const vm: BaseVAlloc
    var virtPtr: nat
    var readOnly: bool
    var lockSize: nat
    var data: bool    // whether there is a lock; if so, the bytes are those of
    var page: Pid     // this page's buffer,
    var offset: nat   // from here on

    /** There is a lock, and it shows the bytes of memory from `virtPtr` on. */
    ghost predicate Locked()
      reads this, vm`held, vm`cached, vm`counts
    {
      data && Shows(vm.State(), page, offset, lockSize, virtPtr, readOnly)
    }

    constructor (vm: BaseVAlloc, v: nat, s: nat, ro: bool)
      requires vm.Valid() && 1 <= v && 1 <= s && v + Min(s, vm.bigPool.Length1) <= vm.store.Length
      requires |vm.UnlockedPages()| >= 1 && vm.CountsBelow(255)
      modifies vm`info, vm`nextPageToSwap, vm`free, vm`locked, vm`cached, vm`held, vm`counts, vm`base
      modifies vm.store, vm.smallPool, vm.mediumPool, vm.bigPool
      ensures this.vm == vm && virtPtr == v && readOnly == ro
      ensures vm.Valid() && Locked() && 1 <= lockSize <= s && lockSize <= vm.bigPool.Length1
      ensures Granted(page, vm.bigPool.Length1, old(vm.State()), vm.State())
      ensures vm.FittingLock(page, v, lockSize, s, ro, old(vm.State()), vm.State())
    {
      hide BaseVAlloc.Valid, Shows, Granted, BaseVAlloc.UnlockedIn, BaseVAlloc.CountsBelow, BaseVAlloc.FittingLock;
      this.vm, virtPtr, readOnly := vm, v, ro;
      new;
      page, offset, lockSize := Grab(vm, v, s, ro);
      data := true;
    }

    /** Takes the lock again after Unlock, with the size it had. */
    method Lock()
      requires vm.Valid() && !data && 1 <= virtPtr && 1 <= lockSize && virtPtr + Min(lockSize, vm.bigPool.Length1) <= vm.store.Length
      requires |vm.UnlockedPages()| >= 1 && vm.CountsBelow(255)
      modifies this, vm`info, vm`nextPageToSwap, vm`free, vm`locked, vm`cached, vm`held, vm`counts, vm`base
      modifies vm.store, vm.smallPool, vm.mediumPool, vm.bigPool
      ensures vm.Valid() && Locked() && virtPtr == old(virtPtr) && readOnly == old(readOnly)
      ensures 1 <= lockSize <= old(lockSize) && lockSize <= vm.bigPool.Length1
      ensures Granted(page, vm.bigPool.Length1, old(vm.State()), vm.State())
      ensures vm.FittingLock(page, virtPtr, lockSize, old(lockSize), readOnly, old(vm.State()), vm.State())
    {
      hide BaseVAlloc.Valid, Shows, Granted, BaseVAlloc.UnlockedIn, BaseVAlloc.CountsBelow, BaseVAlloc.FittingLock;
      page, offset, lockSize := Grab(vm, virtPtr, lockSize, readOnly);
      data := true;
    }

    /** Takes another lock. */
    method LockAt(v: nat, s: nat, ro: bool)
      requires vm.Valid() && !data && 1 <= v && 1 <= s && v + Min(s, vm.bigPool.Length1) <= vm.store.Length
      requires |vm.UnlockedPages()| >= 1 && vm.CountsBelow(255)
      modifies this, vm`info, vm`nextPageToSwap, vm`free, vm`locked, vm`cached, vm`held, vm`counts, vm`base
      modifies vm.store, vm.smallPool, vm.mediumPool, vm.bigPool
      ensures vm.Valid() && Locked() && virtPtr == v && readOnly == ro && 1 <= lockSize <= s && lockSize <= vm.bigPool.Length1
      ensures Granted(page, vm.bigPool.Length1, old(vm.State()), vm.State())
      ensures vm.FittingLock(page, v, lockSize, s, ro, old(vm.State()), vm.State())
    {
      hide BaseVAlloc.Valid, Shows, Granted, BaseVAlloc.UnlockedIn, BaseVAlloc.CountsBelow, BaseVAlloc.FittingLock;
      virtPtr, lockSize, readOnly := v, s, ro;
      Lock();
    }

    /** Gives the lock back, if there is one. */
    method Unlock()
      requires vm.Valid() && (data ==> Locked() && (vm.counts[page] == 1 ==> vm.Clearance(page)))
      modifies this`data, vm`info, vm`nextPageToSwap, vm`free, vm`locked, vm`cached, vm`held, vm`counts, vm`base
      modifies vm.store, vm.bigPool
      ensures vm.Valid() && !data
      ensures !old(data) ==> unchanged(vm)
      ensures old(data) ==> GivenBack(page, vm.bigPool.Length1, old(vm.State()), vm.State())
    {
      hide BaseVAlloc.Valid, BaseVAlloc.UpperOk, NoNewWindows, ClearAt;
      if data {
        OnlyPage();
        ghost var x := vm.ReleaseLock(virtPtr);
        data := false;
      }
    }

    lemma OnlyPage()
      requires vm.Valid() && Locked()
      ensures vm.held[page].Covers(virtPtr)
      ensures forall y :: y in vm.held && vm.held[y].Covers(virtPtr) ==> y == page
    {
      hide BaseVAlloc.Valid, LayerOk;
      vm.Parts();
      forall y | y in vm.held && vm.held[y].Covers(virtPtr)
        ensures y == page
      {
        vm.OneCovers(page, y, virtPtr);
      }
    }

    /** The first `n` bytes the lock shows. */
    method Bytes(n: nat) returns (s: seq<byte>)
      requires vm.Valid() && Locked() && n <= lockSize
      ensures virtPtr + n <= |vm.mem| && s == vm.mem[virtPtr..virtPtr + n]
    {
      hide BaseVAlloc.Valid, Slice;
      vm.LockShows(page, offset, n);
      s := Slice(vm.Pool(page.c), page.i, offset, n);
    }

    /** Stores bytes through the lock. */
    method Put(d: seq<byte>)
      requires vm.Valid() && Locked() && !readOnly && |d| <= lockSize
      modifies vm.smallPool, vm.mediumPool, vm.bigPool, vm`held, vm`mem
      ensures vm.Valid() && Stored(old(vm.mem), virtPtr, d, vm.mem)
      ensures LocksKeep(old(vm.State()), vm.State())
    {
      hide BaseVAlloc.Valid, Stored;
      vm.StoreLocked(page, offset, d);
    }
  }

  // --- one chunk ---

  lemma {:induction false} FewerElements<T>(s: set<T>, t: set<T>)
    requires s <= t
    ensures |s| <= |t|
  {
    if s != {} {
      var x :| x in s;
      FewerElements(s - {x}, t - {x});
    }
  }

  /** Taking one lock leaves all but one of the pages unlocked that were. */
  lemma OneFewer(vm: BaseVAlloc, x: Pid, s: LockState, s': LockState, n: nat, m: nat)
    requires Granted(x, vm.bigPool.Length1, s, s') && |vm.UnlockedIn(s.counts)| > n && forall y :: y in s.counts ==> s.counts[y] < m
    ensures |vm.UnlockedIn(s'.counts)| >= n && forall y :: y in s'.counts ==> s'.counts[y] < m + 1
  {
    FewerElements(vm.UnlockedIn(s.counts) - {x}, vm.UnlockedIn(s'.counts));
  }

  lemma ClearGiven(x: Pid, y: Pid, s: LockState, s': LockState, size: nat)
    requires ClearAt(x, s.held, s.cached, size) && Disjoint(s.held) && GivenBack(y, size, s, s') && x in s'.counts && s'.counts[x] > 0
    ensures ClearAt(x, s'.held, s'.cached, size)
  {
    ApartUnlessSame(s.held, x, y);
  }

  lemma HeldApart(vm: BaseVAlloc)
    requires vm.Valid()
    ensures Disjoint(vm.held)
  {
    hide AllAgree, Explained, BaseVAlloc.CacheOk;
  }

  /** A store through a lock, and nothing else. */
  ghost predicate Touched(s: LockState, s': LockState) {
    s'.counts == s.counts && s'.cached == s.cached && LocksKeep(s, s')
  }

  lemma SecondClear(y: Pid, size: nat, s: LockState, s1: LockState, s2: LockState)
    requires Granted(y, size, s, s1) && Touched(s1, s2)
    ensures y in s2.counts && (s2.counts[y] == 1 ==> ClearAt(y, s2.held, s2.cached, size))
  {
  }

  lemma FirstClear(x: Pid, y: Pid, size: nat, s: LockState, s1: LockState, s2: LockState, s3: LockState, s4: LockState)
    requires Granted(x, size, s, s1) && Granted(y, size, s1, s2) && Touched(s2, s3) && GivenBack(y, size, s3, s4) && Disjoint(s3.held)
    ensures x in s4.counts && (s4.counts[x] == 1 ==> ClearAt(x, s4.held, s4.cached, size))
    ensures s4.counts[x] > 0 && s4.counts == s1.counts
  {
    if s.counts[x] == 0 {
      assert ClearAt(x, s3.held, s3.cached, size) by {
        assert x in s2.held && x in s3.held;
      }
      ClearGiven(x, y, s3, s4, size);
    }
  }

  /** Locks made and given back leave the others as they were. */
  lemma BothGiven(x: Pid, y: Pid, size: nat, s: LockState, s1: LockState, s2: LockState, s3: LockState, s4: LockState, s5: LockState)
    requires Granted(x, size, s, s1) && Granted(y, size, s1, s2) && Touched(s2, s3)
    requires GivenBack(y, size, s3, s4) && GivenBack(x, size, s4, s5)
    ensures s5.counts == s.counts && LocksKeep(s, s5)
  {
    hide Granted, GivenBack, PagesKeep;
    var k, k1, k2 := s.counts, s1.counts, s2.counts;
    GrantedMeans(x, size, s, s1);
    GrantedMeans(y, size, s1, s2);
    GivenMeans(y, size, s3, s4);
    GivenMeans(x, size, s4, s5);
    CountsBack(x, y, k, k1, k2, s4.counts);
    KeepGiven(y, size, s3, s4);
    KeepGiven(x, size, s4, s5);
    KeepAll(k, k1, k2, s.held, s1.held, s2.held, s3.held, s4.held, s5.held);
  }

  lemma GrantedMeans(x: Pid, size: nat, s: LockState, s': LockState)
    requires Granted(x, size, s, s')
    ensures x in s.counts && s'.counts == s.counts[x := s.counts[x] + 1] && PagesKeep(s.counts, s.held, s'.held)
  {
    hide PagesKeep;
  }

  lemma GivenMeans(x: Pid, size: nat, s: LockState, s': LockState)
    requires GivenBack(x, size, s, s')
    ensures x in s.counts && s.counts[x] > 0 && s'.counts == s.counts[x := s.counts[x] - 1]
  {
  }

  lemma CountsBack(x: Pid, y: Pid, k: map<Pid, nat>, k1: map<Pid, nat>, k2: map<Pid, nat>, k4: map<Pid, nat>)
    requires x in k && k1 == k[x := k[x] + 1] && y in k1 && k2 == k1[y := k1[y] + 1] && k4 == k2[y := k2[y] - 1]
    ensures k4 == k1 && k1[x := k1[x] - 1] == k
  {
  }

  lemma KeepAll(k: map<Pid, nat>, k1: map<Pid, nat>, k2: map<Pid, nat>, h: map<Pid, Window>, h1: map<Pid, Window>, h2: map<Pid, Window>,
                h3: map<Pid, Window>, h4: map<Pid, Window>, h5: map<Pid, Window>)
    requires PagesKeep(k, h, h1) && PagesKeep(k1, h1, h2) && PagesKeep(k2, h2, h3) && PagesKeep(k1, h3, h4) && PagesKeep(k, h4, h5)
    requires forall x :: x in k && k[x] > 0 ==> x in k1 && k1[x] > 0 && x in k2 && k2[x] > 0
    ensures PagesKeep(k, h, h5)
  {
    hide PagesKeep;
    KeepFewer(k, k1, h1, h2);
    KeepFewer(k, k2, h2, h3);
    KeepFewer(k, k1, h3, h4);
    KeepThrough(k, h, h1, h2);
    KeepThrough(k, h, h2, h3);
    KeepThrough(k, h, h3, h4);
    KeepThrough(k, h, h4, h5);
  }

  lemma FirstStill(x: Pid, y: Pid, size: nat, s2: LockState, s3: LockState, s4: LockState, offset: nat, n: nat, p: nat, ro: bool)
    requires Shows(s2, x, offset, n, p, ro) && Touched(s2, s3) && GivenBack(y, size, s3, s4) && x in s4.counts && s4.counts[x] > 0
    ensures Shows(s4, x, offset, n, p, ro)
  {
  }

  lemma SecondStill(y: Pid, s2: LockState, s3: LockState, offset: nat, n: nat, p: nat, ro: bool)
    requires Shows(s2, y, offset, n, p, ro) && Touched(s2, s3)
    ensures Shows(s3, y, offset, n, p, ro)
  {
  }

  lemma SecondGranted(x: Pid, y: Pid, size: nat, s1: LockState, s2: LockState, offset: nat, n: nat, p: nat, ro: bool)
    requires Shows(s1, x, offset, n, p, ro) && Granted(y, size, s1, s2)
    ensures Shows(s2, x, offset, n, p, ro)
  {
  }

  /** Copies what one pair of locks can hold. */
  method CopyChunk(vm: BaseVAlloc, p1: nat, p2: nat, cpsize: nat, kind: Kind) returns (n: nat, more: bool)
    requires vm.Valid() && 1 <= p1 && 1 <= p2 && 1 <= cpsize <= vm.bigPool.Length1
    requires p1 + cpsize <= |vm.mem| && p2 + cpsize <= |vm.mem| == vm.store.Length
    requires |vm.UnlockedPages()| >= 2 && vm.CountsBelow(254)
    modifies vm`info, vm`nextPageToSwap, vm`free, vm`locked, vm`cached, vm`held, vm`counts, vm`base, vm`mem
    modifies vm.store, vm.smallPool, vm.mediumPool, vm.bigPool
    ensures vm.Valid() && vm.counts == old(vm.counts) && LocksKeep(old(vm.State()), vm.State())
    ensures 1 <= n <= cpsize && |vm.mem| == old(|vm.mem|)
    ensures var s := old(vm.mem)[p2..p2 + n];
            Stored(old(vm.mem), p1, s[..Cut(kind, s)], vm.mem) && (more <==> kind == Mem || 0 !in s)
  {
    hide BaseVAlloc.Valid, BaseVAlloc.FittingLock, NoNewWindows, ClearAt, LocksKeep, Granted, GivenBack, Shows, BaseVAlloc.UnlockedIn, Stored, Cut;
    ghost var size := vm.bigPool.Length1;
    ghost var s0 := vm.State();
    n := cpsize;
    var l1 := new VPtrLock(vm, p1, n, false);
    ghost var s1 := vm.State();
    OneFewer(vm, l1.page, s0, s1, 1, 254);
    n := Min(n, l1.lockSize);
    var l2 := new VPtrLock(vm, p2, n, true);
    ghost var s2 := vm.State();
    n := Min(n, l2.lockSize);
    SecondGranted(l1.page, l2.page, size, s1, s2, l1.offset, l1.lockSize, p1, false);
    var s := l2.Bytes(n);
    var d;
    d, more := Copier(kind, s);
    ghost var m2 := vm.mem;
    l1.Put(d);
    StoredSize(m2, p1, d, vm.mem);
    ghost var s3 := vm.State();
    SecondStill(l2.page, s2, s3, l2.offset, l2.lockSize, p2, true);
    SecondClear(l2.page, size, s1, s2, s3);
    HeldApart(vm);
    l2.Unlock();
    ghost var s4 := vm.State();
    FirstClear(l1.page, l2.page, size, s0, s1, s2, s3, s4);
    FirstStill(l1.page, l2.page, size, s2, s3, s4, l1.offset, l1.lockSize, p1, false);
    l1.Unlock();
    BothGiven(l1.page, l2.page, size, s0, s1, s2, s3, s4, vm.State());
  }

  lemma StoredSize(m: seq<byte>, p: nat, d: seq<byte>, m': seq<byte>)
    requires Stored(m, p, d, m')
    ensures |m'| == |m|
  {
  }

  // --- copying ---

  /** `s` is what one call copies that may copy `size` bytes: a string ends with its first zero. */
  ghost predicate Copies(kind: Kind, size: nat, s: seq<byte>) {
    && |s| <= size && Cut(kind, s) == |s|
    && (|s| == size || (kind == Str && s != [] && s[|s| - 1] == 0))
  }

  lemma {:induction false} CutMeans(kind: Kind, s: seq<byte>)
    ensures kind == Str ==> forall k :: 0 <= k < Cut(kind, s) - 1 ==> s[k] != 0
    ensures kind == Str && Cut(kind, s) < |s| ==> s[Cut(kind, s) - 1] == 0
    decreases |s|
  {
    if kind == Str && s != [] && s[0] != 0 {
      CutMeans(kind, s[1..]);
    }
  }

  /** A chunk takes the copy further, to its end or as far as the chunk reaches. */
  lemma ChunkCopied(kind: Kind, size: nat, m0: seq<byte>, dest: nat, src: nat, len: nat, t: nat, m: seq<byte>, n: nat, m': seq<byte>)
    requires t < len && 1 <= n <= size - t && src + len <= |m0| == |m| && src + t + n <= |m|
    requires Copies(kind, size, m0[src..src + len])
    requires dest + len <= src || src + len <= dest
    requires Stored(m0, dest, m0[src..src + t], m)
    requires var s := m[src + t..src + t + n]; Stored(m, dest + t, s[..Cut(kind, s)], m')
    ensures var s := m[src + t..src + t + n]; var e := Cut(kind, s);
            && t + e <= len && Stored(m0, dest, m0[src..src + (t + e)], m')
            && (if kind == Mem || 0 !in s then e == n && (t + n < len || t + n == size) else t + e == len)
  {
    var s, w := m[src + t..src + t + n], m0[src..src + len];
    forall k | 0 <= k < n && t + k < len
      ensures s[k] == w[t + k]
    {
      assert s[k] == m[src + t + k] && w[t + k] == m0[src + t + k];
    }
    if kind == Str {
      ChunkCut(size, w, t, s);
    } else {
      CutAt(kind, s, n);
    }
  }

  lemma ChunkCut(size: nat, w: seq<byte>, t: nat, s: seq<byte>)
    requires t < |w| && 1 <= |s| <= size - t && Copies(Str, size, w)
    requires forall k :: 0 <= k < |s| && t + k < |w| ==> s[k] == w[t + k]
    ensures t + Cut(Str, s) <= |w|
    ensures if 0 !in s then Cut(Str, s) == |s| && (t + |s| < |w| || t + |s| == size) else t + Cut(Str, s) == |w|
  {
    CutMeans(Str, w);
    var n := if t + |s| <= |w| then |s| else |w| - t;
    assert forall k :: 0 <= k < n - 1 ==> s[k] == w[t + k];
    if t + |s| > |w| {
      assert s[n - 1] == w[|w| - 1];
    }
    CutAt(Str, s, n);
    if t + |s| >= |w| && |w| < size {
      assert s[|w| - t - 1] == w[|w| - 1] == 0;
    }
    if 0 in s {
      var k :| 0 <= k < |s| && s[k] == 0;
      assert k < n ==> k == n - 1;
    }
  }

  /** memcpy and strcpy between two ranges of virtual memory: `len` bytes are copied, as one
      call on plain memory would, and no others are touched. */
  method RawCopy(vm: BaseVAlloc, dest: nat, src: nat, size: nat, kind: Kind, ghost len: nat) returns (r: nat)
    requires vm.Valid() && vm.store.Length == |vm.mem| && 1 <= dest && 1 <= src
    requires src + len <= |vm.mem| && Copies(kind, size, vm.mem[src..src + len])
    requires dest + len <= src || src + len <= dest || dest == src
    requires size > 0 ==> InPool(dest, size, len, vm.bigPool.Length1, |vm.mem|) && InPool(src, size, len, vm.bigPool.Length1, |vm.mem|)
    requires |vm.UnlockedPages()| >= 2 && vm.CountsBelow(254)
    modifies vm`info, vm`nextPageToSwap, vm`free, vm`locked, vm`cached, vm`held, vm`counts, vm`base, vm`mem
    modifies vm.store, vm.smallPool, vm.mediumPool, vm.bigPool
    ensures vm.Valid() && vm.counts == old(vm.counts) && LocksKeep(old(vm.State()), vm.State())
    ensures r == dest && Stored(old(vm.mem), dest, old(vm.mem)[src..src + len], vm.mem)
  {
    hide BaseVAlloc.Valid, PagesKeep, Copies, BaseVAlloc.UnlockedIn, BaseVAlloc.CountsBelow, Stored, Cut;
    r := dest;
    ghost var m0, s0 := vm.mem, vm.State();
    SelfKept(s0);
    CopyBegins(kind, size, m0, dest, src, len);
    if size == 0 || dest == src {
      return;
    }
    var sizeleft := size;
    var maxlocksize := vm.bigPool.Length1;  // `dest` and `src` differ in constness: the overlap bound is off
    vm.SizeOfBig();
    var p1, p2 := dest, src;
    ghost var t: nat := 0;
    while sizeleft != 0
      invariant vm.Valid() && vm.counts == s0.counts && LocksKeep(s0, vm.State())
      invariant p1 == dest + t && p2 == src + t && sizeleft == size - t && |vm.mem| == |m0|
      invariant t < len || t == len == size
      invariant Stored(m0, dest, m0[src..src + t], vm.mem)
    {
      var cpsize := Min(maxlocksize, sizeleft);
      ghost var m, s1 := vm.mem, vm.State();
      var n, more := CopyChunk(vm, p1, p2, cpsize, kind);
      ChunkCopied(kind, size, m0, dest, src, len, t, m, n, vm.mem);
      KeepThrough(s0.counts, s0.held, s1.held, vm.held);
      if !more {
        return;
      }
      t := t + n;
      p1, p2 := p1 + n, p2 + n;
      sizeleft := sizeleft - n;
    }
  }

  lemma SelfKept(s: LockState)
    ensures LocksKeep(s, s)
  {
  }

  lemma CopyBegins(kind: Kind, size: nat, m: seq<byte>, dest: nat, src: nat, len: nat)
    requires src + len <= |m| && Copies(kind, size, m[src..src + len])
    ensures Stored(m, dest, m[src..src + 0], m)
    ensures size == 0 || dest == src ==> Stored(m, dest, m[src..src + len], m)
    ensures size > 0 ==> 0 < len <= size
  {
  }

  // --- filling ---

  method FillChunk(vm: BaseVAlloc, p: nat, setsize: nat, c: byte) returns (n: nat)
    requires vm.Valid() && 1 <= p && 1 <= setsize <= vm.bigPool.Length1 && p + setsize <= |vm.mem| == vm.store.Length
    requires |vm.UnlockedPages()| >= 1 && vm.CountsBelow(255)
    modifies vm`info, vm`nextPageToSwap, vm`free, vm`locked, vm`cached, vm`held, vm`counts, vm`base, vm`mem
    modifies vm.store, vm.smallPool, vm.mediumPool, vm.bigPool
    ensures vm.Valid() && vm.counts == old(vm.counts) && LocksKeep(old(vm.State()), vm.State())
    ensures 1 <= n <= setsize && |vm.mem| == old(|vm.mem|)
    ensures Stored(old(vm.mem), p, seq(n, _ => c), vm.mem)
  {
    hide BaseVAlloc.Valid, BaseVAlloc.FittingLock, NoNewWindows, ClearAt, PagesKeep, Granted, GivenBack, Shows, BaseVAlloc.UnlockedIn, Stored, BaseVAlloc.CountsBelow;
    ghost var size := vm.bigPool.Length1;
    ghost var s0, m0 := vm.State(), vm.mem;
    var l := new VPtrLock(vm, p, setsize, false);
    ghost var s1 := vm.State();
    n := l.lockSize;
    var d := seq(n, _ => c);
    l.Put(d);
    StoredSize(m0, p, d, vm.mem);
    ghost var s2 := vm.State();
    SecondStill(l.page, s1, s2, l.offset, l.lockSize, p, false);
    SecondClear(l.page, size, s0, s1, s2);
    l.Unlock();
    OneGiven(l.page, size, s0, s1, s2, vm.State());
  }

  lemma OneGiven(x: Pid, size: nat, s: LockState, s1: LockState, s2: LockState, s3: LockState)
    requires Granted(x, size, s, s1) && Touched(s1, s2) && GivenBack(x, size, s2, s3)
    ensures s3.counts == s.counts && LocksKeep(s, s3)
  {
    hide Granted, GivenBack, PagesKeep;
    GrantedMeans(x, size, s, s1);
    GivenMeans(x, size, s2, s3);
    KeepGiven(x, size, s2, s3);
    assert s3.counts == s.counts;
    KeepFewer(s.counts, s1.counts, s1.held, s2.held);
    KeepThrough(s.counts, s.held, s1.held, s2.held);
    KeepThrough(s.counts, s.held, s2.held, s3.held);
  }

  /** memset on virtual memory. */
  method Memset(vm: BaseVAlloc, dest: nat, c: int, size: nat) returns (r: nat)
    requires vm.Valid() && 1 <= dest && dest + size <= |vm.mem| == vm.store.Length
    requires |vm.UnlockedPages()| >= 1 && vm.CountsBelow(255)
    modifies vm`info, vm`nextPageToSwap, vm`free, vm`locked, vm`cached, vm`held, vm`counts, vm`base, vm`mem
    modifies vm.store, vm.smallPool, vm.mediumPool, vm.bigPool
    ensures vm.Valid() && vm.counts == old(vm.counts) && LocksKeep(old(vm.State()), vm.State())
    ensures r == dest && Stored(old(vm.mem), dest, seq(size, _ => c % 0x100), vm.mem)
  {
    hide BaseVAlloc.Valid, PagesKeep, BaseVAlloc.UnlockedIn, BaseVAlloc.CountsBelow, Stored;
    r := dest;
    ghost var m0, s0 := vm.mem, vm.State();
    SelfKept(s0);
    FillBegins(m0, dest, c % 0x100);
    if size == 0 {
      return;
    }
    vm.SizeOfBig();
    var sizeleft, p := size, dest;
    while sizeleft != 0
      invariant vm.Valid() && vm.counts == s0.counts && LocksKeep(s0, vm.State())
      invariant 0 <= sizeleft <= size && p == dest + size - sizeleft && |vm.mem| == |m0|
      invariant Stored(m0, dest, seq(size - sizeleft, _ => c % 0x100), vm.mem)
    {
      var setsize := Min(vm.bigPool.Length1, sizeleft);
      ghost var m, s1 := vm.mem, vm.State();
      setsize := FillChunk(vm, p, setsize, c % 0x100);
      FillMore(m0, dest, c % 0x100, size - sizeleft, m, setsize, vm.mem);
      KeepThrough(s0.counts, s0.held, s1.held, vm.held);
      p := p + setsize;
      sizeleft := sizeleft - setsize;
    }
  }

  lemma FillBegins(m: seq<byte>, dest: nat, c: byte)
    ensures Stored(m, dest, seq(0, _ => c), m)
  {
  }

  lemma FillMore(m0: seq<byte>, dest: nat, c: byte, t: nat, m: seq<byte>, n: nat, m': seq<byte>)
    requires Stored(m0, dest, seq(t, _ => c), m) && Stored(m, dest + t, seq(n, _ => c), m')
    ensures Stored(m0, dest, seq(t + n, _ => c), m')
  {
  }

  // --- comparing ---

  /** `cmp` and `done` are what a comparison of `n` bytes says. */
  ghost predicate ChunkSays(m: seq<byte>, p1: nat, p2: nat, n: nat, kind: Kind, cmp: int, done: bool) {
    && p1 + n <= |m| && p2 + n <= |m| && cmp == Compare(kind, m[p1..p1 + n], m[p2..p2 + n])
    && (cmp != 0 || done <==> Decided(kind, m[p1..p1 + n], m[p2..p2 + n]))
  }

  method CompareChunk(vm: BaseVAlloc, p1: nat, p2: nat, cmpsize: nat, kind: Kind) returns (n: nat, cmp: int, done: bool)
    requires vm.Valid() && 1 <= p1 && 1 <= p2 && 1 <= cmpsize <= vm.bigPool.Length1
    requires p1 + cmpsize <= |vm.mem| && p2 + cmpsize <= |vm.mem| == vm.store.Length
    requires |vm.UnlockedPages()| >= 2 && vm.CountsBelow(254)
    modifies vm`info, vm`nextPageToSwap, vm`free, vm`locked, vm`cached, vm`held, vm`counts, vm`base
    modifies vm.store, vm.smallPool, vm.mediumPool, vm.bigPool
    ensures vm.Valid() && vm.counts == old(vm.counts) && LocksKeep(old(vm.State()), vm.State())
    ensures 1 <= n <= cmpsize && ChunkSays(vm.mem, p1, p2, n, kind, cmp, done)
  {
    hide BaseVAlloc.Valid, BaseVAlloc.FittingLock, NoNewWindows, ClearAt, PagesKeep, Granted, GivenBack, Shows, BaseVAlloc.UnlockedIn, Compare, Decided;
    ghost var size := vm.bigPool.Length1;
    ghost var s0 := vm.State();
    n := cmpsize;
    var l1 := new VPtrLock(vm, p1, n, true);
    ghost var s1 := vm.State();
    OneFewer(vm, l1.page, s0, s1, 1, 254);
    n := Min(n, l1.lockSize);
    var l2 := new VPtrLock(vm, p2, n, true);
    ghost var s2 := vm.State();
    n := Min(n, l2.lockSize);
    SecondGranted(l1.page, l2.page, size, s1, s2, l1.offset, l1.lockSize, p1, true);
    var a := l1.Bytes(n);
    var b := l2.Bytes(n);
    cmp, done := Comparator(kind, a, b);
    SelfKept(s2);
    SecondClear(l2.page, size, s1, s2, s2);
    HeldApart(vm);
    l2.Unlock();
    ghost var s4 := vm.State();
    FirstClear(l1.page, l2.page, size, s0, s1, s2, s2, s4);
    FirstStill(l1.page, l2.page, size, s2, s2, s4, l1.offset, l1.lockSize, p1, true);
    l1.Unlock();
    BothGiven(l1.page, l2.page, size, s0, s1, s2, s2, s4, vm.State());
  }

  /** memcmp and strcmp of two ranges of virtual memory: what one call on plain memory says
      that looks at `len` bytes, all there are or at least enough to decide. */
  method RawCompare(vm: BaseVAlloc, p1: nat, p2: nat, size: nat, kind: Kind, ghost len: nat) returns (cmp: int)
    requires vm.Valid() && vm.store.Length == |vm.mem| && 1 <= p1 && 1 <= p2
    requires len <= size && p1 + len <= |vm.mem| && p2 + len <= |vm.mem|
    requires len == size || Decided(kind, vm.mem[p1..p1 + len], vm.mem[p2..p2 + len])
    requires size > 0 ==> InPool(p1, size, len, vm.bigPool.Length1, |vm.mem|) && InPool(p2, size, len, vm.bigPool.Length1, |vm.mem|)
    requires p1 == p2 || (p2 - p1) % PAGE_LIMIT != 0
    requires |vm.UnlockedPages()| >= 2 && vm.CountsBelow(254)
    modifies vm`info, vm`nextPageToSwap, vm`free, vm`locked, vm`cached, vm`held, vm`counts, vm`base
    modifies vm.store, vm.smallPool, vm.mediumPool, vm.bigPool
    ensures vm.Valid() && vm.counts == old(vm.counts) && LocksKeep(old(vm.State()), vm.State())
    ensures cmp == Compare(kind, vm.mem[p1..p1 + len], vm.mem[p2..p2 + len])
  {
    hide BaseVAlloc.Valid, PagesKeep, BaseVAlloc.UnlockedIn, BaseVAlloc.CountsBelow, Compare, Decided, MaxLockSize;
    ghost var s0, m := vm.State(), vm.mem;
    SelfKept(s0);
    CompareBegins(kind, m, p1, p2, size, len);
    if size == 0 || p1 == p2 {
      return 0;
    }
    vm.SizeOfBig();
    NoProgress(vm.bigPool.Length1, p1, p2);
    var sizeleft, q1, q2 := size, p1, p2;
    var maxlocksize := MaxLockSize(vm.bigPool.Length1, p1, p2);
    MaxIsSmall(vm.bigPool.Length1, p1, p2);
    ghost var t: nat := 0;
    while sizeleft != 0
      invariant vm.Valid() && vm.counts == s0.counts && LocksKeep(s0, vm.State())
      invariant q1 == p1 + t && q2 == p2 + t && sizeleft == size - t
      invariant t <= len && (t == len ==> t == size) && !Decided(kind, m[p1..p1 + t], m[p2..p2 + t])
    {
      var cmpsize := Min(maxlocksize, sizeleft);
      ghost var s1 := vm.State();
      var n, done;
      n, cmp, done := CompareChunk(vm, q1, q2, cmpsize, kind);
      KeepThrough(s0.counts, s0.held, s1.held, vm.held);
      ChunkCompared(kind, size, m, p1, p2, len, t, n);
      if cmp != 0 || done {
        return;
      }
      t := t + n;
      q1, q2 := q1 + n, q2 + n;
      sizeleft := sizeleft - n;
    }
    Undecided(kind, m[p1..p1 + t], m[p2..p2 + t]);
    return 0;
  }

  lemma MaxIsSmall(pageSize: nat, p1: nat, p2: nat)
    ensures MaxLockSize(pageSize, p1, p2) <= pageSize
  {
  }

  lemma {:induction false} NothingCompared(kind: Kind, a: seq<byte>)
    ensures Compare(kind, a, a) == 0
    ensures a == [] ==> !Decided(kind, a, a)
    decreases |a|
  {
    if a != [] {
      NothingCompared(kind, a[1..]);
    }
  }

  lemma CompareBegins(kind: Kind, m: seq<byte>, p1: nat, p2: nat, size: nat, len: nat)
    requires len <= size && p1 + len <= |m| && p2 + len <= |m|
    requires len == size || Decided(kind, m[p1..p1 + len], m[p2..p2 + len])
    ensures size == 0 || p1 == p2 ==> Compare(kind, m[p1..p1 + len], m[p2..p2 + len]) == 0
    ensures size > 0 ==> len > 0
    ensures !Decided(kind, m[p1..p1 + 0], m[p2..p2 + 0])
  {
    NothingCompared(kind, m[p1..p1 + len]);
  }

  lemma Undecided(kind: Kind, a: seq<byte>, b: seq<byte>)
    requires |a| == |b| && !Decided(kind, a, b)
    ensures Compare(kind, a, b) == 0
  {
  }

  /** A chunk decides the comparison, or takes it further. */
  lemma ChunkCompared(kind: Kind, size: nat, m: seq<byte>, p1: nat, p2: nat, len: nat, t: nat, n: nat)
    requires t < len <= size && n <= size - t && p1 + len <= |m| && p2 + len <= |m| && p1 + t + n <= |m| && p2 + t + n <= |m|
    requires len == size || Decided(kind, m[p1..p1 + len], m[p2..p2 + len])
    requires !Decided(kind, m[p1..p1 + t], m[p2..p2 + t])
    ensures var a, b := m[p1 + t..p1 + t + n], m[p2 + t..p2 + t + n];
            if Decided(kind, a, b) then Compare(kind, a, b) == Compare(kind, m[p1..p1 + len], m[p2..p2 + len])
            else t + n <= len && (t + n == len ==> t + n == size) && !Decided(kind, m[p1..p1 + (t + n)], m[p2..p2 + (t + n)])
  {
    hide Compare;
    Append(kind, m, p1, p2, t, n);
    if t + n <= len {
      Append(kind, m, p1, p2, t + n, len - (t + n));
    } else {
      Append(kind, m, p1, p2, len, t + n - len);
    }
  }

  lemma Append(kind: Kind, m: seq<byte>, p1: nat, p2: nat, t: nat, n: nat)
    requires p1 + t + n <= |m| && p2 + t + n <= |m|
    ensures var a, b := m[p1..p1 + t], m[p2..p2 + t]; var a', b' := m[p1 + t..p1 + t + n], m[p2 + t..p2 + t + n];
            && Compare(kind, m[p1..p1 + t + n], m[p2..p2 + t + n]) == (if Decided(kind, a, b) then Compare(kind, a, b) else Compare(kind, a', b'))
            && (Decided(kind, m[p1..p1 + t + n], m[p2..p2 + t + n]) <==> Decided(kind, a, b) || Decided(kind, a', b'))
  {
    hide Compare;
    assert m[p1..p1 + t + n] == m[p1..p1 + t] + m[p1 + t..p1 + t + n];
    assert m[p2..p2 + t + n] == m[p2..p2 + t] + m[p2 + t..p2 + t + n];
    CompareChunks(kind, m[p1..p1 + t], m[p2..p2 + t], m[p1 + t..p1 + t + n], m[p2 + t..p2 + t + n]);
  }

  // --- the C functions ---

  method Memcpy(vm: BaseVAlloc, dest: nat, src: nat, size: nat) returns (r: nat)
    requires vm.Valid() && vm.store.Length == |vm.mem| && 1 <= dest && 1 <= src
    requires dest + size <= |vm.mem| && src + size <= |vm.mem|
    requires dest + size <= src || src + size <= dest || dest == src
    requires |vm.UnlockedPages()| >= 2 && vm.CountsBelow(254)
    modifies vm`info, vm`nextPageToSwap, vm`free, vm`locked, vm`cached, vm`held, vm`counts, vm`base, vm`mem
    modifies vm.store, vm.smallPool, vm.mediumPool, vm.bigPool
    ensures vm.Valid() && vm.counts == old(vm.counts) && LocksKeep(old(vm.State()), vm.State())
    ensures r == dest && Stored(old(vm.mem), dest, old(vm.mem)[src..src + size], vm.mem)
  {
    hide BaseVAlloc.Valid, PagesKeep, BaseVAlloc.UnlockedIn, BaseVAlloc.CountsBelow, Stored;
    r := RawCopy(vm, dest, src, size, Mem, size);
  }

  /** `len` is the length of the string with its zero. */
  method Strcpy(vm: BaseVAlloc, dest: nat, src: nat, ghost len: nat) returns (r: nat)
    requires vm.Valid() && vm.store.Length == |vm.mem| && 1 <= dest && 1 <= src
    requires 1 <= len < WORD && src + len <= |vm.mem| && vm.mem[src + len - 1] == 0 && 0 !in vm.mem[src..src + len - 1]
    requires dest + len <= src || src + len <= dest || dest == src
    requires InPool(dest, WORD - 1, len, vm.bigPool.Length1, |vm.mem|) && InPool(src, WORD - 1, len, vm.bigPool.Length1, |vm.mem|)
    requires |vm.UnlockedPages()| >= 2 && vm.CountsBelow(254)
    modifies vm`info, vm`nextPageToSwap, vm`free, vm`locked, vm`cached, vm`held, vm`counts, vm`base, vm`mem
    modifies vm.store, vm.smallPool, vm.mediumPool, vm.bigPool
    ensures vm.Valid() && vm.counts == old(vm.counts) && LocksKeep(old(vm.State()), vm.State())
    ensures r == dest && Stored(old(vm.mem), dest, old(vm.mem)[src..src + len], vm.mem)
  {
    hide BaseVAlloc.Valid, PagesKeep, BaseVAlloc.UnlockedIn, BaseVAlloc.CountsBelow, Stored;
    CopiesString(vm.mem, src, len);
    r := RawCopy(vm, dest, src, WORD - 1, Str, len);
  }

  lemma CopiesString(m: seq<byte>, src: nat, len: nat)
    requires 1 <= len < WORD && src + len <= |m| && m[src + len - 1] == 0 && 0 !in m[src..src + len - 1]
    ensures Copies(Str, WORD - 1, m[src..src + len])
  {
    var s := m[src..src + len];
    forall k | 0 <= k < len - 1
      ensures s[k] != 0
    {
      assert s[k] == m[src..src + len - 1][k];
    }
    CutAt(Str, s, len);
  }

  method Memcmp(vm: BaseVAlloc, p1: nat, p2: nat, size: nat) returns (cmp: int)
    requires vm.Valid() && vm.store.Length == |vm.mem| && 1 <= p1 && 1 <= p2
    requires p1 + size <= |vm.mem| && p2 + size <= |vm.mem| && (p1 == p2 || (p2 - p1) % PAGE_LIMIT != 0)
    requires |vm.UnlockedPages()| >= 2 && vm.CountsBelow(254)
    modifies vm`info, vm`nextPageToSwap, vm`free, vm`locked, vm`cached, vm`held, vm`counts, vm`base
    modifies vm.store, vm.smallPool, vm.mediumPool, vm.bigPool
    ensures vm.Valid() && vm.counts == old(vm.counts) && LocksKeep(old(vm.State()), vm.State())
    ensures cmp == Compare(Mem, vm.mem[p1..p1 + size], vm.mem[p2..p2 + size])
  {
    hide BaseVAlloc.Valid, PagesKeep, BaseVAlloc.UnlockedIn, BaseVAlloc.CountsBelow, Compare, Decided;
    cmp := RawCompare(vm, p1, p2, size, Mem, size);
  }

  /** `len` bytes, for instance those of the shorter string with its zero, decide the comparison. */
  method Strcmp(vm: BaseVAlloc, p1: nat, p2: nat, ghost len: nat) returns (cmp: int)
    requires vm.Valid() && vm.store.Length == |vm.mem| && 1 <= p1 && 1 <= p2
    requires len < WORD && p1 + len <= |vm.mem| && p2 + len <= |vm.mem|
    requires InPool(p1, WORD - 1, len, vm.bigPool.Length1, |vm.mem|) && InPool(p2, WORD - 1, len, vm.bigPool.Length1, |vm.mem|)
    requires Decided(Str, vm.mem[p1..p1 + len], vm.mem[p2..p2 + len]) && (p1 == p2 || (p2 - p1) % PAGE_LIMIT != 0)
    requires |vm.UnlockedPages()| >= 2 && vm.CountsBelow(254)
    modifies vm`info, vm`nextPageToSwap, vm`free, vm`locked, vm`cached, vm`held, vm`counts, vm`base
    modifies vm.store, vm.smallPool, vm.mediumPool, vm.bigPool
    ensures vm.Valid() && vm.counts == old(vm.counts) && LocksKeep(old(vm.State()), vm.State())
    ensures cmp == Compare(Str, vm.mem[p1..p1 + len], vm.mem[p2..p2 + len])
  {
    hide BaseVAlloc.Valid, PagesKeep, BaseVAlloc.UnlockedIn, BaseVAlloc.CountsBelow, Compare, Decided;
    cmp := RawCompare(vm, p1, p2, WORD - 1, Str, len);
  }
}
