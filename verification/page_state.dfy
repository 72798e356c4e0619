/** The page records of all three size classes, and how they stand for the windows of the
    two layers of `Layers`. */
module PageState {
  import opened Layers
  import opened PageLists

  const SMALL := 0
  const MEDIUM := 1
  const BIG := 2

  /** A page: its size class and its index there. */
  datatype Pid = Pid(c: nat, i: int)

  /** The three size classes. */
  datatype Classes = Classes(small: PageInfo, medium: PageInfo, big: PageInfo) {
    function Of(c: nat): PageInfo { if c == SMALL then small else if c == MEDIUM then medium else big }

    function With(c: nat, info: PageInfo): Classes {
      if c == SMALL then this.(small := info) else if c == MEDIUM then this.(medium := info) else this.(big := info)
    }

    predicate Has(x: Pid) { x.c < 3 && 0 <= x.i < |Of(x.c).pages| }

    function Page(x: Pid): LockPage
      requires Has(x)
    {
      Of(x.c).pages[x.i]
    }

    function WithPage(x: Pid, pg: LockPage): Classes
      requires Has(x)
    {
      With(x.c, Of(x.c).(pages := Of(x.c).pages[x.i := pg]))
    }
  }

  lemma WithPageOnlyChanges(k: Classes, x: Pid, pg: LockPage)
    requires k.Has(x)
    ensures forall y :: k.WithPage(x, pg).Has(y) <==> k.Has(y)
    ensures forall y :: k.Has(y) ==> k.WithPage(x, pg).Page(y) == if y == x then pg else k.Page(y)
  {
  }

  /** For each size class, the pages a walk of one of its lists visits. */
  datatype Lists = Lists(small: seq<int>, medium: seq<int>, big: seq<int>) {
    function Of(c: nat): seq<int> { if c == SMALL then small else if c == MEDIUM then medium else big }

    function With(c: nat, list: seq<int>): Lists {
      if c == SMALL then this.(small := list) else if c == MEDIUM then this.(medium := list) else this.(big := list)
    }
  }

  /** In each class the free and locked lists partition the pages, and the page to swap
      out next is a free big page, or -1 exactly when there is none. */
  ghost predicate ListsOk(k: Classes, free: Lists, locked: Lists, swap: int) {
    && (forall c :: 0 <= c < 3 ==> Partition(k.Of(c), free.Of(c), locked.Of(c)))
    && (if free.big == [] then swap == -1 else swap in free.big)
  }

  /** `cached` is what the big pages on the free list hold. */
  ghost predicate CachedOk(k: Classes, free: Lists, cached: map<int, Window>, size: nat, poolSize: nat) {
    && (forall i :: i in free.big ==>
          0 <= i < |k.big.pages| && k.big.pages[i].size == size && (k.big.pages[i].start != 0 ==> i in cached))
    && (forall i :: i in cached ==>
          && i in free.big && 0 <= i < |k.big.pages|
          && 1 <= cached[i].start == k.big.pages[i].start < poolSize
          && cached[i].dirty == k.big.pages[i].dirty
          && |cached[i].data| == size)
  }

  /** `held` is what pages on the locked lists hold. */
  ghost predicate HeldOk(k: Classes, locked: Lists, held: map<Pid, Window>, poolSize: nat) {
    forall x :: x in held ==>
      && k.Has(x) && x.i in locked.Of(x.c)
      && 1 <= held[x].start == k.Page(x).start
      && held[x].dirty == k.Page(x).dirty
      && 1 <= |held[x].data| == k.Page(x).size
      && held[x].start + |held[x].data| <= poolSize
  }

  /** `counts` is how often each page is locked; only a held page can be. */
  ghost predicate CountsOk(k: Classes, held: map<Pid, Window>, counts: map<Pid, nat>) {
    forall x :: k.Has(x) ==> x in counts && k.Page(x).locks == counts[x] && (x !in held ==> counts[x] == 0)
  }

  /** Every page on a locked list is held. */
  ghost predicate AllHeld(locked: Lists, held: map<Pid, Window>) {
    forall c, i :: 0 <= c < 3 && i in locked.Of(c) ==> Pid(c, i) in held
  }

  /** Big pages go back to the free list with their last lock. */
  ghost predicate BigActive(held: map<Pid, Window>, counts: map<Pid, nat>) {
    forall x :: x in held && x.c == BIG ==> x in counts && counts[x] > 0
  }

  // --- changing a record without moving the page to another list ---

  lemma SameLinks(info: PageInfo, info': PageInfo, free: seq<int>, locked: seq<int>)
    requires Partition(info, free, locked)
    requires |info'.pages| == |info.pages| && info'.freeIndex == info.freeIndex && info'.lockedIndex == info.lockedIndex
    requires forall i :: 0 <= i < |info.pages| ==> info'.pages[i].next == info.pages[i].next
    ensures Partition(info', free, locked)
  {
    hide At;
  }

  lemma ListsKept(k: Classes, free: Lists, locked: Lists, swap: int, x: Pid, pg: LockPage)
    requires ListsOk(k, free, locked, swap)
    requires k.Has(x) && pg.next == k.Page(x).next
    ensures ListsOk(k.WithPage(x, pg), free, locked, swap)
  {
    hide Partition;
    var k' := k.WithPage(x, pg);
    forall c | 0 <= c < 3
      ensures Partition(k'.Of(c), free.Of(c), locked.Of(c))
    {
      assert Partition(k.Of(c), free.Of(c), locked.Of(c));
      if c == x.c {
        SameLinks(k.Of(c), k'.Of(c), free.Of(c), locked.Of(c));
      }
    }
  }

  lemma CachedKept(k: Classes, free: Lists, cached: map<int, Window>, size: nat, poolSize: nat,
                   i: int, pg: LockPage, cached': map<int, Window>)
    requires CachedOk(k, free, cached, size, poolSize)
    requires i in free.big && pg.size == size
    requires pg.start == 0 || (1 <= pg.start < poolSize && i in cached' && |cached'[i].data| == size
                               && cached'[i].start == pg.start && cached'[i].dirty == pg.dirty)
    requires cached' == if pg.start == 0 then cached - {i} else cached[i := cached'[i]]
    ensures CachedOk(k.WithPage(Pid(BIG, i), pg), free, cached', size, poolSize)
  {
  }

  lemma CachedRewritten(k: Classes, free: Lists, cached: map<int, Window>, size: nat, poolSize: nat, i: int, w: Window)
    requires CachedOk(k, free, cached, size, poolSize)
    requires i in cached && w.start == cached[i].start && w.dirty == cached[i].dirty && |w.data| == size
    ensures CachedOk(k, free, cached[i := w], size, poolSize)
  {
  }

  lemma HeldKept(k: Classes, locked: Lists, held: map<Pid, Window>, poolSize: nat, x: Pid, pg: LockPage)
    requires HeldOk(k, locked, held, poolSize)
    requires k.Has(x) && x !in held
    ensures HeldOk(k.WithPage(x, pg), locked, held, poolSize)
  {
    WithPageOnlyChanges(k, x, pg);
  }

  lemma CountsKept(k: Classes, held: map<Pid, Window>, counts: map<Pid, nat>, x: Pid, pg: LockPage)
    requires CountsOk(k, held, counts)
    requires k.Has(x) && k.Page(x).locks == pg.locks
    ensures CountsOk(k.WithPage(x, pg), held, counts)
  {
    WithPageOnlyChanges(k, x, pg);
  }

  /** All of the above for a big page on the free list. */
  lemma IdleKept(k: Classes, free: Lists, locked: Lists, swap: int, cached: map<int, Window>, held: map<Pid, Window>,
                 counts: map<Pid, nat>, size: nat, poolSize: nat, i: int, pg: LockPage, cached': map<int, Window>)
    requires ListsOk(k, free, locked, swap) && CachedOk(k, free, cached, size, poolSize)
    requires HeldOk(k, locked, held, poolSize) && CountsOk(k, held, counts)
    requires k.Has(Pid(BIG, i)) && i in free.big
    requires pg.size == size && pg.next == k.big.pages[i].next && pg.locks == k.big.pages[i].locks
    requires pg.start == 0 || (1 <= pg.start < poolSize && i in cached' && |cached'[i].data| == size
                               && cached'[i].start == pg.start && cached'[i].dirty == pg.dirty)
    requires cached' == if pg.start == 0 then cached - {i} else cached[i := cached'[i]]
    ensures var k' := k.WithPage(Pid(BIG, i), pg);
            && ListsOk(k', free, locked, swap) && CachedOk(k', free, cached', size, poolSize)
            && HeldOk(k', locked, held, poolSize) && CountsOk(k', held, counts)
  {
    IdleIsNotHeld(k, free, locked, swap, held, poolSize, i);
    hide ListsOk, CachedOk, HeldOk, CountsOk;
    var x := Pid(BIG, i);
    ListsKept(k, free, locked, swap, x, pg);
    CachedKept(k, free, cached, size, poolSize, i, pg, cached');
    HeldKept(k, locked, held, poolSize, x, pg);
    CountsKept(k, held, counts, x, pg);
  }

  lemma IdleIsNotHeld(k: Classes, free: Lists, locked: Lists, swap: int, held: map<Pid, Window>, poolSize: nat, i: int)
    requires ListsOk(k, free, locked, swap) && HeldOk(k, locked, held, poolSize)
    requires i in free.big
    ensures Pid(BIG, i) !in held
  {
    assert Partition(k.Of(BIG), free.Of(BIG), locked.Of(BIG));
  }

  // --- moving a page to the other list ---

  /** The records are the same, up to where the lists lead next. */
  ghost predicate SameButNext(k: Classes, k': Classes) {
    && |k'.small.pages| == |k.small.pages| && |k'.medium.pages| == |k.medium.pages| && |k'.big.pages| == |k.big.pages|
    && forall x :: k.Has(x) ==> k'.Has(x) && k'.Page(x).(next := 0) == k.Page(x).(next := 0)
  }

  /** Class `c` after page `from[m]` has been put in front of the other list. */
  function Relisted(info: PageInfo, toFree: bool, from: seq<int>, m: nat): PageInfo
    requires m < |from| && forall j :: 0 <= j < |from| ==> 0 <= from[j] < |info.pages|
  {
    var toHead := if toFree then info.freeIndex else info.lockedIndex;
    var fromHead := if toFree then info.lockedIndex else info.freeIndex;
    var fromHead' := if m == 0 then info.pages[from[m]].next else fromHead;
    PageInfo(Moved(info.pages, from, m, toHead), if toFree then from[m] else fromHead', if toFree then fromHead' else from[m])
  }

  /** Unlinks page `index` from one list of its class and puts it in front of the other. */
  method Relist(info: PageInfo, toFree: bool, index: int, ghost from: seq<int>, ghost m: nat) returns (r: PageInfo)
    requires Threads(info.pages, if toFree then info.lockedIndex else info.freeIndex, from)
    requires m < |from| && from[m] == index
    ensures r == Relisted(info, toFree, from, m)
  {
    var pages, head := Unlink(info.pages, if toFree then info.lockedIndex else info.freeIndex, index, from, m);
    if toFree {
      r := PageInfo(pages[index := pages[index].(next := info.freeIndex)], index, head);
    } else {
      r := PageInfo(pages[index := pages[index].(next := info.lockedIndex)], head, index);
    }
  }

  lemma RelistedPartition(info: PageInfo, toFree: bool, free: seq<int>, locked: seq<int>, m: nat)
    requires Partition(info, free, locked)
    requires m < |if toFree then locked else free|
    ensures var i := (if toFree then locked else free)[m];
            0 <= i < |info.pages| &&
            if toFree then Partition(Relisted(info, toFree, locked, m), [i] + free, Without(locked, m))
            else Partition(Relisted(info, toFree, free, m), Without(free, m), [i] + locked)
  {
    if toFree {
      MoveKeepsPartition(info.pages, info.lockedIndex, locked, info.freeIndex, free, m);
    } else {
      MoveKeepsPartition(info.pages, info.freeIndex, free, info.lockedIndex, locked, m);
    }
  }

  lemma RelistedRecords(k: Classes, c: nat, toFree: bool, from: seq<int>, m: nat)
    requires c < 3 && m < |from| && forall j :: 0 <= j < |from| ==> 0 <= from[j] < |k.Of(c).pages|
    ensures SameButNext(k, k.With(c, Relisted(k.Of(c), toFree, from, m)))
  {
  }

  /** A nonempty walk starts on its own list, and no page on it is numbered -1. */
  lemma WalkStarts(pages: seq<LockPage>, head: int, list: seq<int>)
    requires Threads(pages, head, list)
    ensures if list == [] then head == -1 else head in list
    ensures -1 !in list
  {
  }

  lemma ListsAfterLock(k: Classes, free: Lists, locked: Lists, swap: int, c: nat, m: nat, k': Classes)
    requires ListsOk(k, free, locked, swap) && c < 3 && m < |free.Of(c)|
    requires forall j :: 0 <= j < |free.Of(c)| ==> 0 <= free.Of(c)[j] < |k.Of(c).pages|
    requires k' == k.With(c, Relisted(k.Of(c), false, free.Of(c), m))
    ensures var i := free.Of(c)[m];
            && ListsOk(k', free.With(c, Without(free.Of(c), m)), locked.With(c, [i] + locked.Of(c)),
                       if c == BIG && swap == i then k'.big.freeIndex else swap)
            && forall j :: j in Without(free.Of(c), m) <==> j in free.Of(c) && j != i
  {
    hide Partition, Relisted, Without;
    var i, rest := free.Of(c)[m], Without(free.Of(c), m);
    var free', locked' := free.With(c, rest), locked.With(c, [i] + locked.Of(c));
    assert Partition(k.Of(c), free.Of(c), locked.Of(c));
    RelistedPartition(k.Of(c), false, free.Of(c), locked.Of(c), m);
    forall d | 0 <= d < 3
      ensures Partition(k'.Of(d), free'.Of(d), locked'.Of(d))
    {
      assert Partition(k.Of(d), free.Of(d), locked.Of(d));
    }
    RestOfList(k.Of(c), free.Of(c), locked.Of(c), m);
    FirstOfList(k'.Of(BIG), free'.Of(BIG), locked'.Of(BIG));
  }

  lemma RestOfList(info: PageInfo, free: seq<int>, locked: seq<int>, m: nat)
    requires Partition(info, free, locked)
    ensures m < |free| ==> forall j :: j in Without(free, m) <==> j in free && j != free[m]
    ensures m < |locked| ==> forall j :: j in Without(locked, m) <==> j in locked && j != locked[m]
  {
    if m < |free| { WithoutMembers(free, m); }
    if m < |locked| { WithoutMembers(locked, m); }
  }

  lemma FirstOfList(info: PageInfo, free: seq<int>, locked: seq<int>)
    requires Partition(info, free, locked)
    ensures if free == [] then info.freeIndex == -1 else info.freeIndex in free
    ensures -1 !in free
  {
    WalkStarts(info.pages, info.freeIndex, free);
  }

  lemma ListsAfterFree(k: Classes, free: Lists, locked: Lists, swap: int, c: nat, m: nat, k': Classes)
    requires ListsOk(k, free, locked, swap) && c < 3 && m < |locked.Of(c)|
    requires forall j :: 0 <= j < |locked.Of(c)| ==> 0 <= locked.Of(c)[j] < |k.Of(c).pages|
    requires k' == k.With(c, Relisted(k.Of(c), true, locked.Of(c), m))
    ensures var i := locked.Of(c)[m];
            && ListsOk(k', free.With(c, [i] + free.Of(c)), locked.With(c, Without(locked.Of(c), m)),
                       if c == BIG && swap == -1 then i else swap)
            && forall j :: j in Without(locked.Of(c), m) <==> j in locked.Of(c) && j != i
  {
    hide Partition, Relisted, Without;
    var i, rest := locked.Of(c)[m], Without(locked.Of(c), m);
    var free', locked' := free.With(c, [i] + free.Of(c)), locked.With(c, rest);
    assert Partition(k.Of(c), free.Of(c), locked.Of(c));
    RelistedPartition(k.Of(c), true, free.Of(c), locked.Of(c), m);
    forall d | 0 <= d < 3
      ensures Partition(k'.Of(d), free'.Of(d), locked'.Of(d))
    {
      assert Partition(k.Of(d), free.Of(d), locked.Of(d));
    }
    RestOfList(k.Of(c), free.Of(c), locked.Of(c), m);
    assert Partition(k.Of(BIG), free.Of(BIG), locked.Of(BIG));
    FirstOfList(k.big, free.big, locked.big);
  }

  lemma CachedAfterLock(k: Classes, free: Lists, cached: map<int, Window>, size: nat, poolSize: nat,
                        k': Classes, free': Lists, i: int)
    requires CachedOk(k, free, cached, size, poolSize) && SameButNext(k, k')
    requires forall j :: j in free'.big <==> j in free.big && j != i
    ensures CachedOk(k', free', cached - {i}, size, poolSize)
  {
    SameBigRecords(k, k');
  }

  lemma CachedAfterFree(k: Classes, free: Lists, cached: map<int, Window>, size: nat, poolSize: nat,
                        k': Classes, free': Lists, i: int, cached': map<int, Window>)
    requires CachedOk(k, free, cached, size, poolSize) && SameButNext(k, k')
    requires forall j :: j in free'.big <==> j in free.big || j == i
    requires k.Has(Pid(BIG, i)) && i !in free.big && k.big.pages[i].size == size
    requires var pg := k.big.pages[i];
             if pg.start == 0 then cached' == cached
             else && pg.start < poolSize && i in cached' && cached' == cached[i := cached'[i]] && |cached'[i].data| == size
                  && cached'[i].start == pg.start && cached'[i].dirty == pg.dirty
    ensures CachedOk(k', free', cached', size, poolSize)
  {
    SameBigRecords(k, k');
  }

  lemma SameBigRecords(k: Classes, k': Classes)
    requires SameButNext(k, k')
    ensures forall j :: 0 <= j < |k.big.pages| ==> k'.big.pages[j].(next := 0) == k.big.pages[j].(next := 0)
  {
    forall j | 0 <= j < |k.big.pages|
      ensures k'.big.pages[j].(next := 0) == k.big.pages[j].(next := 0)
    {
      assert k.Has(Pid(BIG, j));
      assert k.Page(Pid(BIG, j)) == k.big.pages[j] && k'.Page(Pid(BIG, j)) == k'.big.pages[j];
    }
  }

  lemma HeldMoved(k: Classes, held: map<Pid, Window>, poolSize: nat, locked: Lists, k': Classes, locked': Lists)
    requires HeldOk(k, locked, held, poolSize) && SameButNext(k, k')
    requires forall x :: x in held ==> x.i in locked'.Of(x.c)
    ensures HeldOk(k', locked', held, poolSize)
  {
  }

  lemma CountsMoved(k: Classes, held: map<Pid, Window>, counts: map<Pid, nat>, k': Classes)
    requires CountsOk(k, held, counts) && SameButNext(k, k')
    ensures CountsOk(k', held, counts)
  {
  }

  lemma SameCounts(k: Classes, k': Classes)
    requires SameButNext(k, k')
    ensures |k'.small.pages| == |k.small.pages| && |k'.medium.pages| == |k.medium.pages| && |k'.big.pages| == |k.big.pages|
    ensures forall x :: k'.Has(x) <==> k.Has(x)
    ensures forall x :: k.Has(x) ==> k'.Page(x) == k.Page(x).(next := k'.Page(x).next)
  {
    forall x | k.Has(x)
      ensures k'.Page(x) == k.Page(x).(next := k'.Page(x).next)
    {
      assert k'.Page(x).(next := 0) == k.Page(x).(next := 0);
    }
  }

  lemma StateAfterLock(k: Classes, free: Lists, locked: Lists, cached: map<int, Window>, held: map<Pid, Window>,
                       counts: map<Pid, nat>, size: nat, poolSize: nat, c: nat, i: int, k': Classes, free': Lists)
    requires CachedOk(k, free, cached, size, poolSize) && HeldOk(k, locked, held, poolSize) && CountsOk(k, held, counts)
    requires c < 3 && SameButNext(k, k')
    requires forall j :: j in free'.big <==> j in free.big && !(c == BIG && j == i)
    ensures CachedOk(k', free', if c == BIG then cached - {i} else cached, size, poolSize)
    ensures HeldOk(k', locked.With(c, [i] + locked.Of(c)), held, poolSize) && CountsOk(k', held, counts)
  {
    if c == BIG {
      CachedAfterLock(k, free, cached, size, poolSize, k', free', i);
    } else {
      SameBigRecords(k, k');
    }
    hide CachedOk;
    HeldMoved(k, held, poolSize, locked, k', locked.With(c, [i] + locked.Of(c)));
    CountsMoved(k, held, counts, k');
  }

  lemma StateAfterFree(k: Classes, free: Lists, locked: Lists, cached: map<int, Window>, held: map<Pid, Window>,
                       counts: map<Pid, nat>, size: nat, poolSize: nat, c: nat, i: int, k': Classes, locked': Lists,
                       cached': map<int, Window>)
    requires CachedOk(k, free, cached, size, poolSize) && HeldOk(k, locked, held, poolSize) && CountsOk(k, held, counts)
    requires c < 3 && SameButNext(k, k') && Pid(c, i) !in held
    requires forall d :: 0 <= d < 3 && d != c ==> locked'.Of(d) == locked.Of(d)
    requires forall j :: j in locked'.Of(c) <==> j in locked.Of(c) && j != i
    requires if c != BIG then cached' == cached
             else && k.Has(Pid(BIG, i)) && i !in free.big && k.big.pages[i].size == size
                  && var pg := k.big.pages[i];
                     if pg.start == 0 then cached' == cached
                     else && pg.start < poolSize && i in cached' && cached' == cached[i := cached'[i]] && |cached'[i].data| == size
                          && cached'[i].start == pg.start && cached'[i].dirty == pg.dirty
    ensures CachedOk(k', free.With(c, [i] + free.Of(c)), cached', size, poolSize)
    ensures HeldOk(k', locked', held, poolSize) && CountsOk(k', held, counts)
  {
    if c == BIG {
      CachedAfterFree(k, free, cached, size, poolSize, k', free.With(c, [i] + free.Of(c)), i, cached');
    } else {
      SameBigRecords(k, k');
    }
    hide CachedOk;
    HeldMoved(k, held, poolSize, locked, k', locked');
    CountsMoved(k, held, counts, k');
  }

  /** A page that is no longer locked may cease to be held. */
  lemma HeldDropped(k: Classes, locked: Lists, held: map<Pid, Window>, counts: map<Pid, nat>, poolSize: nat, x: Pid)
    requires HeldOk(k, locked, held, poolSize) && CountsOk(k, held, counts)
    requires x in counts && counts[x] == 0
    ensures HeldOk(k, locked, held - {x}, poolSize) && CountsOk(k, held - {x}, counts)
  {
  }

  // --- changing the record of a page that is not a free big page ---

  lemma CachedElsewhere(k: Classes, free: Lists, cached: map<int, Window>, size: nat, poolSize: nat, x: Pid, pg: LockPage)
    requires CachedOk(k, free, cached, size, poolSize)
    requires k.Has(x) && !(x.c == BIG && x.i in free.big)
    ensures CachedOk(k.WithPage(x, pg), free, cached, size, poolSize)
  {
  }

  /** Giving a held page a new window, or making a page held. */
  lemma HeldSet(k: Classes, locked: Lists, held: map<Pid, Window>, poolSize: nat, x: Pid, pg: LockPage, w: Window)
    requires HeldOk(k, locked, held, poolSize)
    requires k.Has(x) && x.i in locked.Of(x.c)
    requires 1 <= w.start == pg.start && w.dirty == pg.dirty && 1 <= |w.data| == pg.size && w.start + |w.data| <= poolSize
    ensures HeldOk(k.WithPage(x, pg), locked, held[x := w], poolSize)
  {
    WithPageOnlyChanges(k, x, pg);
  }

  lemma HeldRewritten(k: Classes, locked: Lists, held: map<Pid, Window>, counts: map<Pid, nat>, poolSize: nat, x: Pid, w: Window)
    requires HeldOk(k, locked, held, poolSize) && CountsOk(k, held, counts)
    requires x in held && w.start == held[x].start && w.dirty == held[x].dirty && |w.data| == |held[x].data|
    ensures HeldOk(k, locked, held[x := w], poolSize) && CountsOk(k, held[x := w], counts)
  {
  }

  lemma CountsSet(k: Classes, held: map<Pid, Window>, counts: map<Pid, nat>, x: Pid, pg: LockPage, held': map<Pid, Window>)
    requires CountsOk(k, held, counts)
    requires k.Has(x) && (pg.locks == 0 || x in held')
    requires forall y :: y != x ==> (y in held' <==> y in held)
    ensures CountsOk(k.WithPage(x, pg), held', counts[x := pg.locks])
  {
    WithPageOnlyChanges(k, x, pg);
  }

  /** All of the above for a page on a locked list. */
  lemma LockedSet(k: Classes, free: Lists, locked: Lists, swap: int, cached: map<int, Window>, held: map<Pid, Window>,
                  counts: map<Pid, nat>, size: nat, poolSize: nat, x: Pid, pg: LockPage, w: Window)
    requires ListsOk(k, free, locked, swap) && CachedOk(k, free, cached, size, poolSize)
    requires HeldOk(k, locked, held, poolSize) && CountsOk(k, held, counts)
    requires k.Has(x) && x.i in locked.Of(x.c) && pg.next == k.Page(x).next
    requires 1 <= w.start == pg.start && w.dirty == pg.dirty && 1 <= |w.data| == pg.size && w.start + |w.data| <= poolSize
    ensures var k' := k.WithPage(x, pg);
            && ListsOk(k', free, locked, swap) && CachedOk(k', free, cached, size, poolSize)
            && HeldOk(k', locked, held[x := w], poolSize) && CountsOk(k', held[x := w], counts[x := pg.locks])
            && |k'.small.pages| == |k.small.pages| && |k'.medium.pages| == |k.medium.pages| && |k'.big.pages| == |k.big.pages|
            && k'.Has(x) && k'.Page(x) == pg
  {
    LockedIsNotFree(k, free, locked, swap, x);
    hide ListsOk, CachedOk, HeldOk, CountsOk;
    ListsKept(k, free, locked, swap, x, pg);
    CachedElsewhere(k, free, cached, size, poolSize, x, pg);
    HeldSet(k, locked, held, poolSize, x, pg, w);
    CountsSet(k, held, counts, x, pg, held[x := w]);
  }

  lemma LockedIsNotFree(k: Classes, free: Lists, locked: Lists, swap: int, x: Pid)
    requires ListsOk(k, free, locked, swap)
    requires k.Has(x) && x.i in locked.Of(x.c)
    ensures x.i !in free.Of(x.c)
  {
    assert Partition(k.Of(x.c), free.Of(x.c), locked.Of(x.c));
  }

  lemma AllHeldAfterLock(locked: Lists, held: map<Pid, Window>, x: Pid, w: Window)
    requires AllHeld(locked, held) && x.c < 3
    ensures AllHeld(locked.With(x.c, [x.i] + locked.Of(x.c)), held[x := w])
  {
  }

  lemma AllHeldSet(locked: Lists, held: map<Pid, Window>, x: Pid, w: Window)
    requires AllHeld(locked, held)
    ensures AllHeld(locked, held[x := w])
  {
  }

  lemma AllHeldReused(locked: Lists, held: map<Pid, Window>, x: Pid, w: Window)
    requires AllHeld(locked, held)
    ensures AllHeld(locked, (held - {x})[x := w])
  {
  }

  lemma AllHeldAfterFree(k: Classes, free: Lists, locked: Lists, swap: int, held: map<Pid, Window>, c: nat, m: nat)
    requires ListsOk(k, free, locked, swap) && AllHeld(locked, held)
    requires c < 3 && m < |locked.Of(c)|
    ensures AllHeld(locked.With(c, Without(locked.Of(c), m)), held - {Pid(c, locked.Of(c)[m])})
  {
    assert Partition(k.Of(c), free.Of(c), locked.Of(c));
    WithoutMembers(locked.Of(c), m);
  }

  // --- reading facts off the state ---

  lemma FreeStep(k: Classes, free: Lists, locked: Lists, swap: int, c: nat, n: nat)
    requires ListsOk(k, free, locked, swap) && c < 3
    ensures k.Of(c).freeIndex == At(free.Of(c), 0)
    ensures n < |free.Of(c)| ==>
              var i := free.Of(c)[n];
              && k.Has(Pid(c, i)) && i in free.Of(c) && i !in locked.Of(c)
              && k.Of(c).pages[i].next == At(free.Of(c), n + 1)
              && forall m :: 0 <= m < |free.Of(c)| && m != n ==> free.Of(c)[m] != i
  {
    assert Partition(k.Of(c), free.Of(c), locked.Of(c));
  }

  /** The page after a free big page, and the first free big page, may be swapped next. */
  lemma SwapStays(k: Classes, free: Lists, locked: Lists, swap: int, i: int)
    requires ListsOk(k, free, locked, swap) && i in free.big
    ensures k.Has(Pid(BIG, i))
    ensures k.big.pages[i].next != -1 ==> ListsOk(k, free, locked, k.big.pages[i].next)
    ensures k.big.freeIndex != -1 && ListsOk(k, free, locked, k.big.freeIndex)
  {
    hide Partition;
    var n :| 0 <= n < |free.big| && free.big[n] == i;
    FreeStep(k, free, locked, swap, BIG, n);
    FreeStep(k, free, locked, swap, BIG, n + 1);
    FreeStep(k, free, locked, swap, BIG, 0);
  }

  lemma LockedStep(k: Classes, free: Lists, locked: Lists, swap: int, c: nat, n: nat)
    requires ListsOk(k, free, locked, swap) && c < 3
    ensures k.Of(c).lockedIndex == At(locked.Of(c), 0)
    ensures n < |locked.Of(c)| ==>
              var i := locked.Of(c)[n];
              && k.Has(Pid(c, i)) && i in locked.Of(c) && i !in free.Of(c)
              && k.Of(c).pages[i].next == At(locked.Of(c), n + 1)
              && forall m :: 0 <= m < |locked.Of(c)| && m != n ==> locked.Of(c)[m] != i
  {
    assert Partition(k.Of(c), free.Of(c), locked.Of(c));
  }

  /** Page `i` of a class holds nothing and is not locked. */
  ghost predicate AllEmpty(info: PageInfo) {
    forall i :: 0 <= i < |info.pages| ==> info.pages[i].start == 0 && info.pages[i].locks == 0
  }

  /** With every page free and empty the state is in order. */
  lemma Started(k: Classes, free: Lists, locked: Lists, counts: map<Pid, nat>, size: nat, poolSize: nat)
    requires forall c :: 0 <= c < 3 ==> Partition(k.Of(c), free.Of(c), locked.Of(c)) && AllEmpty(k.Of(c))
    requires locked == Lists([], [], [])
    requires 0 in free.big && forall i :: 0 <= i < |k.big.pages| ==> k.big.pages[i].size == size
    requires forall x :: k.Has(x) ==> x in counts && counts[x] == 0
    ensures ListsOk(k, free, locked, 0) && CachedOk(k, free, map[], size, poolSize)
    ensures HeldOk(k, locked, map[], poolSize) && CountsOk(k, map[], counts)
    ensures AllHeld(locked, map[]) && BigActive(map[], counts)
  {
    assert Partition(k.Of(BIG), free.Of(BIG), locked.Of(BIG)) && AllEmpty(k.Of(BIG));
    forall x | k.Has(x)
      ensures k.Page(x).locks == 0
    {
      assert AllEmpty(k.Of(x.c));
    }
  }
}
