/** The paged cache of the virtual memory allocator and the locks on top of it. */
module BaseAlloc {
  import opened Layers
  import opened PageLists
  import opened PageState

  const PAGE_MAX_CLEAN_SKIPS := 5

  // how good a page pullRawData has found so far, best first
  const GOTPARTIAL := 1
  const GOTEMPTY := 2
  const GOTCLEAN := 3
  const GOTDIRTY := 4
  const GOTNONE := 5

  function Min(a: nat, b: nat): nat { if a < b then a else b }

  // --- page buffers ---

  /** Row `i` of a pool begins with the bytes `d`. */
  ghost predicate RowHas(pool: array2<byte>, i: int, d: seq<byte>)
    reads pool
  {
    0 <= i < pool.Length0 && |d| <= pool.Length1 && forall j :: 0 <= j < |d| ==> pool[i, j] == d[j]
  }

  lemma RowPrefix(pool: array2<byte>, i: int, d: seq<byte>, n: nat)
    requires RowHas(pool, i, d) && n <= |d|
    ensures RowHas(pool, i, d[..n])
  {
  }

  function Slice(pool: array2<byte>, i: nat, off: nat, n: nat): (r: seq<byte>)
    requires i < pool.Length0 && off + n <= pool.Length1
    reads pool
    ensures |r| == n && forall j :: 0 <= j < n ==> r[j] == pool[i, off + j]
  {
    seq(n, j requires 0 <= j < n reads pool => pool[i, off + j])
  }

  method MemCpy(pool: array2<byte>, i: nat, off: nat, d: seq<byte>)
    requires i < pool.Length0 && off + |d| <= pool.Length1
    modifies pool
    ensures forall r, j :: 0 <= r < pool.Length0 && 0 <= j < pool.Length1 ==>
      pool[r, j] == if r == i && off <= j < off + |d| then d[j - off] else old(pool[r, j])
  {
    forall j | 0 <= j < |d| { pool[i, off + j] := d[j]; }
  }

  // --- windows ---

  /** A window that starts at `p`, or one that holds all of [p, p + size). */
  predicate Fits(w: Window, p: nat, size: nat, atstart: bool) {
    if atstart then w.start == p else w.start <= p && p + size <= w.start + |w.data|
  }

  /** A page that begins at `start` is in the way of one that is to begin at `p`, or touches it. */
  predicate Hit(start: nat, p: nat, size: nat) {
    (p >= start && p < start + size) || (p + size >= start && p + size <= start + size)
  }

  /** Among the first `n` pages of the list, those in the way at `p` are empty now; nothing else has changed. */
  ghost predicate Emptied(list: seq<int>, n: nat, p: nat, size: nat, before: map<int, Window>, after: map<int, Window>) {
    && (forall j :: j in after ==> j in before && after[j] == before[j])
    && (forall m :: 0 <= m < |list| && list[m] in before ==>
          (list[m] in after <==> !(m < n && Hit(before[list[m]].start, p, size))))
  }

  /** The page to use, judged by the first `n` pages of the list: one in the way at `p` if there is any,
      else an empty one, and else, if all are dirty, the next in turn. */
  ghost predicate Best(i: int, found: int, list: seq<int>, n: nat, p: nat, size: nat, before: map<int, Window>, swap: int) {
    && n <= |list| && GOTPARTIAL <= found <= GOTNONE
    && (found == GOTPARTIAL <==> exists m :: 0 <= m < n && list[m] in before && Hit(before[list[m]].start, p, size))
    && (found == GOTPARTIAL ==> i in before && Hit(before[i].start, p, size))
    && (found == GOTEMPTY ==> i !in before)
    && (found > GOTEMPTY ==> forall m :: 0 <= m < n ==> list[m] in before)
    && (found > GOTCLEAN ==> forall m :: 0 <= m < n ==> list[m] in before && before[list[m]].dirty)
    && (found == GOTDIRTY ==> i == swap) && (found == GOTNONE ==> forall m :: 0 <= m < n ==> list[m] != swap)
    && if found == GOTNONE then i == -1 else exists m :: 0 <= m < n && list[m] == i
  }

  lemma BestBegins(list: seq<int>, p: nat, size: nat, before: map<int, Window>, swap: int)
    ensures Best(-1, GOTNONE, list, 0, p, size, before, swap) && Emptied(list, 0, p, size, before, before)
  {
  }

  lemma BestNext(i: int, found: int, list: seq<int>, n: nat, p: nat, size: nat, before: map<int, Window>, swap: int, i': int, found': int)
    requires Best(i, found, list, n, p, size, before, swap) && n < |list|
    requires var x := list[n];
             if x in before && Hit(before[x].start, p, size) then i' == x && found' == GOTPARTIAL
             else if x !in before && found != GOTPARTIAL then i' == x && found' == GOTEMPTY
             else if found > GOTCLEAN && x in before then
               (i' == x && found' == GOTCLEAN) || (before[x].dirty && if found != GOTDIRTY && x == swap then i' == x && found' == GOTDIRTY
                                                                      else i' == i && found' == found)
             else i' == i && found' == found
    ensures Best(i', found', list, n + 1, p, size, before, swap)
  {
    if found' != GOTNONE {
      assert exists m :: 0 <= m < n + 1 && list[m] == i' by {
        assert i' == list[n] || i' == i;
      }
    }
  }

  lemma EmptiedNext(list: seq<int>, n: nat, p: nat, size: nat, before: map<int, Window>, mid: map<int, Window>, after: map<int, Window>)
    requires Emptied(list, n, p, size, before, mid) && n < |list| && forall m :: 0 <= m < |list| && m != n ==> list[m] != list[n]
    requires after == if list[n] in before && Hit(before[list[n]].start, p, size) then mid - {list[n]} else mid
    ensures Emptied(list, n + 1, p, size, before, after)
  {
  }

  /** Page `i` is made to hold [p, p + n): nothing else changes if it does already, and else
      exactly the pages that are in the way are emptied. */
  ghost predicate Pulled(i: int, p: nat, n: nat, atstart: bool, readonly: bool, size: nat, before: map<int, Window>, after: map<int, Window>) {
    if exists j :: j in before && Fits(before[j], p, n, atstart) then
      i in before && Fits(before[i], p, n, atstart) && after == before[i := before[i].(dirty := before[i].dirty || !readonly)]
    else
      && (forall j :: j in after && j != i ==> j in before && after[j] == before[j])
      && (forall j :: j in before && j != i ==> (j in after <==> !Hit(before[j].start, p, size)))
  }

  lemma PulledFound(i: int, p: nat, n: nat, atstart: bool, readonly: bool, size: nat, before: map<int, Window>, after: map<int, Window>)
    requires i in before && Fits(before[i], p, n, atstart)
    requires after == if readonly then before else before[i := before[i].(dirty := true)]
    ensures Pulled(i, p, n, atstart, readonly, size, before, after)
  {
  }

  lemma PulledAnew(i: int, p: nat, n: nat, atstart: bool, readonly: bool, size: nat, list: seq<int>,
                   before: map<int, Window>, mid: map<int, Window>, after: map<int, Window>)
    requires Emptied(list, |list|, p, size, before, mid) && forall j :: j in before ==> j in list
    requires forall j :: j in before ==> !Fits(before[j], p, n, atstart)
    requires i in after && after == mid[i := after[i]]
    ensures Pulled(i, p, n, atstart, readonly, size, before, after)
  {
    hide Hit, Fits;
    forall j | j in before && j != i
      ensures j in after <==> !Hit(before[j].start, p, size)
    {
      var m :| 0 <= m < |list| && list[m] == j;
    }
  }

  predicate Misses(w: Window, p: nat, n: nat) {
    w.start + |w.data| <= p || p + n <= w.start
  }

  /** Under window `w` the two memories are the same. */
  ghost predicate Mirrored(w: Window, under: seq<byte>, over: seq<byte>) {
    |under| == |over| && forall a :: w.Covers(a) && 0 <= a < |over| ==> under[a] == over[a]
  }

  /** A window read past: it holds none of [p, p + size), or only part and that shows below. */
  ghost predicate Passed(w: Window, p: nat, size: nat, under: seq<byte>, over: seq<byte>) {
    !Fits(w, p, size, false) && (Misses(w, p, size) || Mirrored(w, under, over))
  }

  /** `after` is `before` with some of the bytes `d` stored where they belong, from `p` on. */
  ghost predicate StoredPart(before: seq<byte>, after: seq<byte>, p: nat, d: seq<byte>) {
    |before| == |after| && forall a :: 0 <= a < |after| ==> after[a] == before[a] || (p <= a < p + |d| && after[a] == d[a - p])
  }

  /** All of the bytes `d` from `p` on that fall into window `w` are in `m`. */
  ghost predicate Has(w: Window, m: seq<byte>, p: nat, d: seq<byte>) {
    forall a :: w.Covers(a) && p <= a < p + |d| && a < |m| ==> m[a] == d[a - p]
  }

  lemma StoredPartsHave(before: seq<byte>, mid: seq<byte>, after: seq<byte>, p: nat, d: seq<byte>)
    requires StoredPart(before, mid, p, d) && StoredPart(mid, after, p, d)
    ensures StoredPart(before, after, p, d)
    ensures forall w: Window :: Has(w, mid, p, d) ==> Has(w, after, p, d)
  {
  }

  lemma StoredPiece(before: seq<byte>, after: seq<byte>, w: Window, p: nat, d: seq<byte>, s: nat, e: seq<byte>)
    requires s + |e| <= |d| && e == d[s..s + |e|] && Stored(before, p + s, e, after)
    requires w.start <= p ==> s == 0
    requires p < w.start ==> p + s == w.start
    requires s + |e| == |d| || p + s + |e| == w.start + |w.data|
    ensures StoredPart(before, after, p, d) && Has(w, after, p, d)
  {
  }

  lemma StoredPartNone(m: seq<byte>, p: nat, d: seq<byte>)
    ensures StoredPart(m, m, p, d)
  {
  }

  /** A window written past: it holds none of [p, p + |d|), or only part and that is stored. */
  ghost predicate Written(w: Window, m: seq<byte>, p: nat, d: seq<byte>) {
    !Fits(w, p, |d|, false) && (Misses(w, p, |d|) || Has(w, m, p, d))
  }

  lemma WrittenStays(before: seq<byte>, after: seq<byte>, p: nat, d: seq<byte>)
    requires StoredPart(before, after, p, d)
    ensures forall v: Window, w: Window :: Written(v, before, p, d) && w.start == v.start && |w.data| == |v.data| ==> Written(w, after, p, d)
  {
  }

  /** Bytes stored in part and all in place are stored. */
  lemma StoredWhole(before: seq<byte>, after: seq<byte>, w: Window, p: nat, d: seq<byte>)
    requires StoredPart(before, after, p, d) && Has(w, after, p, d) && Fits(w, p, |d|, false)
    ensures Stored(before, p, d, after)
  {
  }

  lemma StoredRest(before: seq<byte>, mid: seq<byte>, after: seq<byte>, p: nat, d: seq<byte>)
    requires StoredPart(before, mid, p, d) && Stored(mid, p, d, after)
    ensures Stored(before, p, d, after)
  {
  }

  lemma SameShapes(before: map<Pid, Window>, mid: map<Pid, Window>, after: map<Pid, Window>)
    requires SameShape(before, mid) && SameShape(mid, after)
    ensures SameShape(before, after)
  {
  }

  /** The same pages are held at the same places. */
  ghost predicate SameShape(before: map<Pid, Window>, after: map<Pid, Window>) {
    && before.Keys == after.Keys
    && forall x :: x in after ==> x in before && after[x].start == before[x].start && |after[x].data| == |before[x].data| && (before[x].dirty ==> after[x].dirty)
  }

  /** `now` is like `over` wherever `was` is. */
  ghost predicate Nearer(was: seq<byte>, now: seq<byte>, over: seq<byte>) {
    |was| == |now| == |over| && forall a :: 0 <= a < |over| && was[a] == over[a] ==> now[a] == over[a]
  }

  lemma NearerSelf(m: seq<byte>, over: seq<byte>)
    ensures |m| == |over| ==> Nearer(m, m, over)
  {
  }

  lemma NearerStill(was: seq<byte>, mid: seq<byte>, now: seq<byte>, over: seq<byte>)
    requires Nearer(was, mid, over) && Nearer(mid, now, over)
    ensures Nearer(was, now, over)
  {
  }

  /** Every window of `after` is where it was in `before`. */
  ghost predicate NoNewWindows(before: map<int, Window>, after: map<int, Window>) {
    forall j :: j in after ==> j in before && after[j].start == before[j].start && |after[j].data| == |before[j].data|
  }

  /** What is still held is unchanged, and nothing that is locked has been let go. */
  ghost predicate OnlyUnusedLost(before: map<Pid, Window>, after: map<Pid, Window>, counts: map<Pid, nat>) {
    && (forall x :: x in after ==> x in before && after[x] == before[x])
    && (forall x :: x in before && x !in after ==> x in counts && counts[x] == 0)
  }

  /** Pages that are locked are unchanged; others may have been cut short or let go. */
  ghost predicate OnlyUnusedChanged(before: map<Pid, Window>, after: map<Pid, Window>, counts: map<Pid, nat>) {
    && (forall x :: x in after ==> x in before && x in counts && after[x].start == before[x].start && after[x].dirty == before[x].dirty
                                   && (counts[x] > 0 ==> after[x] == before[x]))
    && (forall x :: x in before && x !in after ==> x in counts && counts[x] == 0)
  }

  lemma OnlyUnused(before: map<Pid, Window>, mid: map<Pid, Window>, after: map<Pid, Window>, counts: map<Pid, nat>)
    requires OnlyUnusedChanged(before, mid, counts) && OnlyUnusedChanged(mid, after, counts)
    ensures OnlyUnusedChanged(before, after, counts)
  {
  }

  /** A page that is locked stays where it is with at least what it holds. */
  ghost predicate LocksGrow(before: map<Pid, Window>, after: map<Pid, Window>, counts: map<Pid, nat>) {
    forall x :: x in before && x in counts && counts[x] > 0 ==>
      x in after && after[x].start == before[x].start && before[x].data <= after[x].data && (before[x].dirty ==> after[x].dirty)
  }

  lemma GrowThrough(before: map<Pid, Window>, mid: map<Pid, Window>, after: map<Pid, Window>, counts: map<Pid, nat>)
    requires OnlyUnusedChanged(before, mid, counts) && LocksGrow(mid, after, counts)
    ensures LocksGrow(before, after, counts)
  {
  }

  /** A page that is locked stays where it is with what it holds. */
  ghost predicate LocksStay(before: map<Pid, Window>, after: map<Pid, Window>, counts: map<Pid, nat>) {
    forall x :: x in before && x in counts && counts[x] > 0 ==>
      x in after && after[x].start == before[x].start && after[x].data == before[x].data && (before[x].dirty ==> after[x].dirty)
  }

  ghost predicate CountedUp(x: Pid, before: map<Pid, nat>, after: map<Pid, nat>) {
    x in before && after == before[x := before[x] + 1]
  }

  /** A lock that is not read-only makes its page dirty. */
  ghost predicate MarkedFor(x: Pid, ro: bool, before: map<Pid, Window>, after: map<Pid, Window>) {
    x in before && after == before[x := before[x].(dirty := before[x].dirty || !ro)]
  }

  /** Page `x` holds `size` bytes: those it had and more. */
  ghost predicate Grown(x: Pid, size: nat, before: map<Pid, Window>, after: map<Pid, Window>) {
    && x in before && x in after && after == before[x := after[x]] && after[x].start == before[x].start
    && after[x].dirty == before[x].dirty && |after[x].data| == size && before[x].data <= after[x].data
  }

  /** A size is what was asked for, or stops where a locked page starts. */
  ghost predicate CutAtLock(ptr: nat, size: nat, asked: nat, held: map<Pid, Window>, counts: map<Pid, nat>) {
    size == asked || exists y :: y in held && y in counts && counts[y] > 0 && held[y].start == ptr + size
  }

  lemma CutStill(ptr: nat, size: nat, asked: nat, before: map<Pid, Window>, after: map<Pid, Window>, counts: map<Pid, nat>, counts': map<Pid, nat>)
    requires CutAtLock(ptr, size, asked, before, counts)
    requires OnlyUnusedLost(before, after, counts) || LocksStay(before, after, counts)
    requires forall y :: y in counts ==> y in counts' && counts'[y] >= counts[y]
    ensures CutAtLock(ptr, size, asked, after, counts')
  {
    if size != asked {
      var y :| y in before && y in counts && counts[y] > 0 && before[y].start == ptr + size;
      assert y in after;
    }
  }

  // --- what the search for a fitting lock has met in one class ---

  /** The first `n` pages of the list miss [ptr, ptr + size). */
  ghost predicate ScannedIn(list: seq<int>, h: map<Pid, Window>, c: nat, n: nat, ptr: nat, size: nat) {
    n <= |list| && forall m :: 0 <= m < n ==> var x := Pid(c, list[m]); x in h && Misses(h[x], ptr, size)
  }

  /** `unused` is one of the first `n` pages that is not locked, or -1 if they all are. */
  ghost predicate UnusedIn(list: seq<int>, k: map<Pid, nat>, c: nat, n: nat, unused: int) {
    && n <= |list|
    && (unused != -1 ==> (exists m :: 0 <= m < n && list[m] == unused) && Pid(c, unused) in k && k[Pid(c, unused)] == 0)
    && (unused == -1 ==> forall m :: 0 <= m < n ==> var x := Pid(c, list[m]); x in k && k[x] > 0)
  }

  lemma ScanBegins(list: seq<int>, h: map<Pid, Window>, k: map<Pid, nat>, c: nat, ptr: nat, size: nat)
    ensures ScannedIn(list, h, c, 0, ptr, size) && UnusedIn(list, k, c, 0, -1)
  {
  }

  lemma ScanNext(list: seq<int>, h: map<Pid, Window>, k: map<Pid, nat>, c: nat, n: nat, ptr: nat, size: nat, size': nat, unused: int, unused': int)
    requires ScannedIn(list, h, c, n, ptr, size) && UnusedIn(list, k, c, n, unused) && n < |list| && size' <= size && list[n] != -1
    requires var x := Pid(c, list[n]);
             x in h && x in k && Misses(h[x], ptr, size') && unused' == if k[x] == 0 && unused == -1 then list[n] else unused
    ensures ScannedIn(list, h, c, n + 1, ptr, size') && UnusedIn(list, k, c, n + 1, unused')
  {
  }

  lemma ScanFreed(list: seq<int>, h: map<Pid, Window>, k: map<Pid, nat>, list': seq<int>, h': map<Pid, Window>, c: nat, n: nat, ptr: nat, size: nat, unused: int)
    requires ScannedIn(list, h, c, n, ptr, size) && UnusedIn(list, k, c, n, unused) && n < |list|
    requires |list'| == |list| - 1 && forall j :: 0 <= j < n ==> list'[j] == list[j]
    requires h' == h - {Pid(c, list[n])} && forall j :: 0 <= j < n ==> list[j] != list[n]
    ensures ScannedIn(list', h', c, n, ptr, size) && UnusedIn(list', k, c, n, unused)
  {
    if unused != -1 {
      var m :| 0 <= m < n && list[m] == unused;
      assert list'[m] == unused;
    }
  }

  lemma NothingLost(h: map<Pid, Window>, k: map<Pid, nat>)
    ensures OnlyUnusedLost(h, h, k)
  {
  }

  lemma OneLost(before: map<Pid, Window>, mid: map<Pid, Window>, after: map<Pid, Window>, k: map<Pid, nat>)
    requires OnlyUnusedLost(before, mid, k) && after.Keys <= mid.Keys && forall x :: x in after ==> after[x] == mid[x]
    requires forall x :: x in mid && x !in after ==> x in k && k[x] == 0
    ensures OnlyUnusedLost(before, after, k)
  {
  }

  /** In class `c`, `u` is an unused page that is held, or -1 if there is none. */
  ghost predicate UnusedKnown(h: map<Pid, Window>, k: map<Pid, nat>, c: nat, u: int) {
    if u != -1 then Pid(c, u) in h && Pid(c, u) in k && k[Pid(c, u)] == 0
    else forall y :: y in h && y.c == c ==> y in k && k[y] > 0
  }

  /** All held pages of class `c` miss [ptr, ptr + size). */
  ghost predicate ClassMissed(h: map<Pid, Window>, c: nat, ptr: nat, size: nat) {
    forall y :: y in h && y.c == c ==> Misses(h[y], ptr, size)
  }

  /** Letting go of pages of other classes, or asking for less, changes neither. */
  lemma ClassStill(h: map<Pid, Window>, h': map<Pid, Window>, k: map<Pid, nat>, c: nat, u: int, ptr: nat, size: nat, size': nat)
    requires UnusedKnown(h, k, c, u) && ClassMissed(h, c, ptr, size) && size' <= size
    requires forall y :: y in h' ==> y in h && h'[y] == h[y]
    requires forall y :: y in h && y.c == c ==> y in h'
    ensures UnusedKnown(h', k, c, u) && ClassMissed(h', c, ptr, size')
  {
  }

  lemma LostIsSame(before: map<Pid, Window>, after: map<Pid, Window>, k: map<Pid, nat>)
    requires OnlyUnusedLost(before, after, k)
    ensures forall y :: y in after ==> y in before && after[y] == before[y]
  {
  }

  lemma LostThrough(before: map<Pid, Window>, mid: map<Pid, Window>, after: map<Pid, Window>, k: map<Pid, nat>)
    requires OnlyUnusedLost(before, mid, k) && OnlyUnusedLost(mid, after, k)
    ensures OnlyUnusedLost(before, after, k)
  {
  }

  lemma AllMissed(h: map<Pid, Window>, ptr: nat, size: nat)
    requires forall x :: x in h ==> x.c < 3
    requires ClassMissed(h, SMALL, ptr, size) && ClassMissed(h, MEDIUM, ptr, size) && ClassMissed(h, BIG, ptr, size)
    ensures Uncovered(h, ptr, size)
  {
  }

  /** What is locked and what is cached. */
  datatype LockState = LockState(held: map<Pid, Window>, cached: map<int, Window>, counts: map<Pid, nat>)

  /** If page `x` is a big page held whole, no window of the cache overlaps it. */
  ghost predicate ClearAt(x: Pid, h: map<Pid, Window>, c: map<int, Window>, size: nat) {
    x in h && (x.c == BIG && |h[x].data| == size ==>
      forall j :: j in c ==> c[j].start + size <= h[x].start || h[x].start + size <= c[j].start)
  }

  /** What giving back one lock of page `x` does: a big page that is no longer locked joins the cache. */
  ghost predicate GivenBack(x: Pid, size: nat, s: LockState, s': LockState) {
    && x in s.held && x in s.counts && s.counts[x] > 0 && s'.counts == s.counts[x := s.counts[x] - 1]
    && (if x.c == BIG && s'.counts[x] == 0 then s'.held == s.held - {x} else s'.held == s.held)
    && (if x.c == BIG && s'.counts[x] == 0 && |s.held[x].data| == size then s'.cached == s.cached[x.i := s.held[x]]
        else NoNewWindows(s.cached, s'.cached))
  }

  /** Only the pages `xs` are held anew, or for other addresses, or become dirty. */
  ghost predicate HeldFrom(before: map<Pid, Window>, after: map<Pid, Window>, xs: set<Pid>) {
    forall y :: y in after && y !in xs ==> y in before && after[y].start == before[y].start && after[y].dirty == before[y].dirty
  }

  lemma HeldFromLost(before: map<Pid, Window>, mid: map<Pid, Window>, after: map<Pid, Window>, xs: set<Pid>, counts: map<Pid, nat>)
    requires OnlyUnusedLost(before, mid, counts) || OnlyUnusedChanged(before, mid, counts)
    requires HeldFrom(mid, after, xs)
    ensures HeldFrom(before, after, xs)
  {
  }

  /** A class with pages on its free list still has some there. */
  ghost predicate FreeStay(before: Lists, after: Lists) {
    forall c :: 0 <= c < 3 && before.Of(c) != [] ==> after.Of(c) != []
  }

  lemma FreeStaySelf(f: Lists)
    ensures FreeStay(f, f)
  {
  }

  lemma FreeStayThrough(before: Lists, mid: Lists, after: Lists)
    requires FreeStay(before, mid) && FreeStay(mid, after)
    ensures FreeStay(before, after)
  {
  }

  /** What has been let go began within `size` bytes after `ptr`. */
  ghost predicate LostInside(before: map<Pid, Window>, after: map<Pid, Window>, ptr: nat, size: nat) {
    forall y :: y in before && y !in after ==> ptr < before[y].start < ptr + size
  }

  lemma LostInsideSelf(h: map<Pid, Window>, ptr: nat, size: nat)
    ensures LostInside(h, h, ptr, size)
  {
  }

  lemma LostInsideThrough(before: map<Pid, Window>, mid: map<Pid, Window>, after: map<Pid, Window>, ptr: nat, size: nat, was: nat, k: map<Pid, nat>)
    requires LostInside(before, mid, ptr, size) && LostInside(mid, after, ptr, was) && was <= size && OnlyUnusedLost(before, mid, k)
    ensures LostInside(before, after, ptr, size)
  {
  }

  lemma LostInsideOne(before: map<Pid, Window>, mid: map<Pid, Window>, after: map<Pid, Window>, x: Pid, ptr: nat, size: nat, k: map<Pid, nat>)
    requires LostInside(before, mid, ptr, size) && OnlyUnusedLost(before, mid, k)
    requires x in mid && ptr < mid[x].start < ptr + size && after == mid - {x}
    ensures LostInside(before, after, ptr, size)
  {
  }

  /** If page `x` held `ptr`, it holds what it did, and becomes dirty only for a lock that is not read-only. */
  ghost predicate MarkedIf(x: Pid, ptr: nat, ro: bool, before: map<Pid, Window>, after: map<Pid, Window>) {
    x in before && before[x].Covers(ptr) ==> x in after && after[x] == before[x].(dirty := before[x].dirty || !ro)
  }

  lemma MarkedBefore(x: Pid, ptr: nat, size: nat, ro: bool, before: map<Pid, Window>, mid: map<Pid, Window>, after: map<Pid, Window>, k: map<Pid, nat>)
    requires OnlyUnusedLost(before, mid, k) && LostInside(before, mid, ptr, size) && MarkedIf(x, ptr, ro, mid, after)
    ensures MarkedIf(x, ptr, ro, before, after)
  {
  }

  lemma NoneNewSelf(c: map<int, Window>)
    ensures NoNewWindows(c, c)
  {
  }

  lemma NoneNew(before: map<int, Window>, mid: map<int, Window>, after: map<int, Window>)
    requires NoNewWindows(before, mid) && NoNewWindows(mid, after)
    ensures NoNewWindows(before, after)
  {
  }

  lemma Stays(before: map<Pid, Window>, mid: map<Pid, Window>, after: map<Pid, Window>, counts: map<Pid, nat>)
    requires OnlyUnusedLost(before, mid, counts) && LocksStay(mid, after, counts)
    ensures LocksStay(before, after, counts)
  {
  }

  /** What the search of makeDataLock has found so far: the class it will use, the size it
      can grant, the page that already starts at the address, and unused pages it could
      fall back on, in that class and in a larger one.  -1 stands for none. */
  datatype DataScan = DataScan(pinfo: nat, size: nat, shrunk: bool, pageindex: int,
                               oldlock: int, secpinfo: nat, seclock: int)

  // how the search goes on after a page
  datatype Step = Next | Freed | Done

  /** A page the search is done with: it is out of the way, or it is the one at `ptr`. */
  predicate Seen(w: Window, s: DataScan, ptr: nat) {
    Misses(w, ptr, s.size) || (w.start == ptr && s.pageindex != -1)
  }

  predicate Unused(x: Pid, held: map<Pid, Window>, counts: map<Pid, nat>) {
    x in held && x in counts && counts[x] == 0
  }

  /** No lock is on a page around `ptr`, and none at `ptr` is larger than `size`. */
  predicate Clear(ptr: nat, size: nat, held: map<Pid, Window>, counts: map<Pid, nat>) {
    forall x :: x in held && x in counts && counts[x] > 0 && held[x].Covers(ptr) ==> held[x].start == ptr && |held[x].data| <= size
  }

  class BaseVAlloc {
    const poolSize: nat
    const store: array<byte>        // the backing pool that doRead and doWrite reach
    const smallPool: array2<byte>   // one row a page
    const mediumPool: array2<byte>
    const bigPool: array2<byte>

    var info: Classes
    var nextPageToSwap: int

    ghost var free: Lists
    ghost var locked: Lists
    ghost var cached: map<int, Window>  // what free big pages hold: a layer over `store`
    ghost var held: map<Pid, Window>    // what locked pages hold: a layer over `base`
    ghost var counts: map<Pid, nat>     // how often each page is locked
    ghost var base: seq<byte>           // the memory seen through `cached`
    ghost var mem: seq<byte>            // the memory seen through `held`

    function Pool(c: nat): array2<byte> {
      if c == SMALL then smallPool else if c == MEDIUM then mediumPool else bigPool
    }

    function PageSize(c: nat): nat { Pool(c).Length1 }

    predicate IsPage(x: Pid) { x.c < 3 && 0 <= x.i < Pool(x.c).Length0 }

    /** Windows of a big page's size at `s` and `t` do not overlap. */
    predicate Far(s: nat, t: nat) { s + bigPool.Length1 <= t || t + bigPool.Length1 <= s }

    ghost predicate Config() {
      && poolSize == store.Length
      && smallPool != mediumPool && smallPool != bigPool && mediumPool != bigPool
      && 16 <= smallPool.Length1 <= mediumPool.Length1 <= bigPool.Length1 < 0x1_0000
      && 1 <= smallPool.Length0 <= 127 && 1 <= mediumPool.Length0 <= 127 && 1 <= bigPool.Length0 <= 127
      && poolSize + bigPool.Length1 <= 0x1_0000_0000
    }

    ghost predicate Counted()
      reads this`info
    {
      && |info.small.pages| == smallPool.Length0
      && |info.medium.pages| == mediumPool.Length0
      && |info.big.pages| == bigPool.Length0
    }

    /** The page buffers hold the bytes of their windows. */
    ghost predicate Buffers(ws: map<int, Window>, hs: map<Pid, Window>)
      reads smallPool, mediumPool, bigPool
    {
      && (forall i :: i in ws ==> RowHas(bigPool, i, ws[i].data))
      && (forall x :: x in hs ==> x.c < 3 && RowHas(Pool(x.c), x.i, hs[x].data))
    }

    /** The ghost fields describe the page records and buffers. */
    ghost predicate Coupled()
      reads this`info, this`nextPageToSwap, this`free, this`locked, this`cached, this`held, this`counts
      reads smallPool, mediumPool, bigPool
    {
      && Config() && Counted()
      && ListsOk(info, free, locked, nextPageToSwap)
      && CachedOk(info, free, cached, bigPool.Length1, store.Length)
      && HeldOk(info, locked, held, store.Length)
      && CountsOk(info, held, counts)
      && Buffers(cached, held)
    }

    /** The lower layer: `base` is the backing pool seen through the free big pages. */
    ghost predicate CacheOk()
      reads this`info, this`nextPageToSwap, this`free, this`locked, this`cached, this`held, this`counts, this`base
      reads store, smallPool, mediumPool, bigPool
    {
      Coupled() && LayerOk(cached, store[..], base) && |base| == store.Length
    }

    /** An allocator over a backing pool, with the given numbers and sizes of pages. */
    constructor (pool: array<byte>, smallCount: nat, smallSize: nat, mediumCount: nat, mediumSize: nat, bigCount: nat, bigSize: nat)
      requires 16 <= smallSize <= mediumSize <= bigSize < 0x1_0000
      requires 1 <= smallCount <= 127 && 1 <= mediumCount <= 127 && 1 <= bigCount <= 127
      requires pool.Length + bigSize <= 0x1_0000_0000
      ensures Config() && Counted() && store == pool
      ensures fresh(smallPool) && fresh(mediumPool) && fresh(bigPool)
      ensures smallPool.Length1 == smallSize && mediumPool.Length1 == mediumSize && bigPool.Length1 == bigSize
      ensures smallPool.Length0 == smallCount && mediumPool.Length0 == mediumCount && bigPool.Length0 == bigCount
    {
      poolSize, store := pool.Length, pool;
      var s, m, b := new byte[smallCount, smallSize], new byte[mediumCount, mediumSize], new byte[bigCount, bigSize];
      smallPool, mediumPool, bigPool := s, m, b;
      info := Classes(PageInfo(seq(smallCount, _ => NEW_PAGE), 0, -1),
                      PageInfo(seq(mediumCount, _ => NEW_PAGE), 0, -1),
                      PageInfo(seq(bigCount, _ => NEW_PAGE), 0, -1));
    }

    /** Starts the allocator, or starts it afresh: the memory is then what the pool holds. */
    method Start()
      requires Config() && Counted()
      modifies this
      ensures Valid()
      ensures mem == base == store[..] && held == map[] && cached == map[]
      ensures forall x :: IsPage(x) ==> x in counts && counts[x] == 0
      ensures forall x :: x in counts ==> counts[x] == 0
      ensures free.big != []
    {
      hide Partition, Range, Valid;
      nextPageToSwap := 0;
      var small := StartPages(info.small.pages, false, PageSize(SMALL));
      var medium := StartPages(info.medium.pages, false, PageSize(MEDIUM));
      var big := StartPages(info.big.pages, true, PageSize(BIG));
      info := Classes(small, medium, big);
      free, locked := Lists(Range(|small.pages|), Range(|medium.pages|), Range(|big.pages|)), Lists([], [], []);
      Forget();
    }

    /** With all pages free and empty, both memories are the backing pool. */
    ghost method Forget()
      requires Config() && Counted() && nextPageToSwap == 0
      requires forall c :: 0 <= c < 3 ==> Partition(info.Of(c), free.Of(c), locked.Of(c)) && AllEmpty(info.Of(c))
      requires forall i :: 0 <= i < |info.big.pages| ==> info.big.pages[i].size == bigPool.Length1
      requires free.big == Range(|info.big.pages|) && locked == Lists([], [], [])
      modifies this`cached, this`held, this`counts, this`base, this`mem
      ensures Valid()
      ensures mem == base == store[..] && held == map[] && cached == map[]
      ensures forall x :: IsPage(x) ==> x in counts && counts[x] == 0
      ensures forall x :: x in counts ==> counts[x] == 0
    {
      hide Partition, ListsOk, CachedOk, HeldOk, CountsOk, LayerOk, AllHeld, BigActive;
      cached, held := map[], map[];
      counts := map x: Pid | x in AllPages() :: 0;
      base, mem := store[..], store[..];
      assert free.big[0] == 0;
      Started(info, free, locked, counts, bigPool.Length1, store.Length);
      NoWindows(cached, base);
      NoWindows(held, base);
    }

    ghost function AllPages(): (r: set<Pid>)
      ensures forall x :: x in r <==> IsPage(x)
    {
      set c, i | 0 <= c < 3 && 0 <= i < Pool(c).Length0 :: Pid(c, i)
    }

    // --- reading facts off the state ---

    /** What a walk along the big free list meets at position `n`. */
    lemma Walk(n: nat)
      requires CacheOk()
      ensures |base| == store.Length == poolSize
      ensures info.big.freeIndex == At(free.big, 0)
      ensures n < |free.big| ==>
                var i := free.big[n];
                && i in free.big && IdleFacts(i)
                && info.big.pages[i].next == At(free.big, n + 1)
                && forall m :: 0 <= m < |free.big| && m != n ==> free.big[m] != i
    {
      hide ListsOk, CachedOk, HeldOk, CountsOk, LayerOk, Buffers;
      WalkRecords(n);
    }

    lemma CacheIsCoupled()
      requires CacheOk()
      ensures Coupled() && |base| == store.Length
    {
      hide Coupled, LayerOk;
    }

    /** What of that the page records alone say. */
    lemma WalkRecords(n: nat)
      requires Coupled()
      ensures store.Length == poolSize && info.big.freeIndex == At(free.big, 0)
      ensures n < |free.big| ==>
                var i := free.big[n];
                && i in free.big && IdleFacts(i)
                && info.big.pages[i].next == At(free.big, n + 1)
                && forall m :: 0 <= m < |free.big| && m != n ==> free.big[m] != i
    {
      hide CachedOk, HeldOk, CountsOk, LayerOk, Buffers;
      FreeStep(info, free, locked, nextPageToSwap, BIG, n);
      if n < |free.big| {
        Idle(free.big[n]);
      }
    }

    /** What is known of a big page on the free list. */
    ghost predicate IdleFacts(i: int)
      reads this`info, this`cached, this`held
    {
      && 0 <= i < |info.big.pages| == bigPool.Length0 && info.Has(Pid(BIG, i)) && Pid(BIG, i) !in held
      && info.big.pages[i].size == bigPool.Length1
      && (info.big.pages[i].start != 0 <==> i in cached)
      && (i in cached ==>
            && 1 <= cached[i].start == info.big.pages[i].start < store.Length
            && cached[i].dirty == info.big.pages[i].dirty
            && |cached[i].data| == bigPool.Length1)
    }

    lemma Idle(i: int)
      requires Coupled()
      ensures i in free.big ==> IdleFacts(i)
      ensures i in cached ==> i in free.big
    {
      assert Partition(info.Of(BIG), free.big, locked.big);
    }

    lemma WindowFacts()
      requires Coupled()
      ensures forall j :: j in cached ==>
        j in free.big && |cached[j].data| == bigPool.Length1 && 1 <= cached[j].start < store.Length
    {
    }

    lemma RowShowsBase(i: int)
      requires CacheOk() && i in cached
      ensures forall j :: 0 <= j < bigPool.Length1 && cached[i].start + j < store.Length ==>
        bigPool[i, j] == base[cached[i].start + j]
    {
      assert Agrees(cached[i], base);
      assert RowHas(bigPool, i, cached[i].data);
    }

    /** Of the first `n` free big pages none holds any of [q, q + left). */
    ghost predicate PassedBy(list: seq<int>, ws: map<int, Window>, n: nat, q: nat, left: nat) {
      n <= |list| && forall m :: 0 <= m < n && list[m] in ws && left != 0 ==> Misses(ws[list[m]], q, left)
    }

    lemma NonePassed(list: seq<int>, ws: map<int, Window>, q: nat, left: nat)
      ensures PassedBy(list, ws, 0, q, left)
    {
    }

    /** One more page is passed, which may have been written to but has not moved. */
    lemma PassedOne(list: seq<int>, ws: map<int, Window>, ws': map<int, Window>, n: nat, q: nat, left: nat, q': nat, left': nat)
      requires PassedBy(list, ws, n, q, left) && NoNewWindows(ws, ws') && n < |list|
      requires q <= q' && q' + left' <= q + left && (list[n] in ws && left' != 0 ==> Misses(ws[list[n]], q', left'))
      ensures PassedBy(list, ws', n + 1, q', left')
    {
      forall m | 0 <= m < n + 1 && list[m] in ws' && left' != 0
        ensures Misses(ws'[list[m]], q', left')
      {
        var j := list[m];
        assert j in ws' && j in ws && ws'[j].start == ws[j].start;
        if m < n {
          assert Misses(ws[j], q, left);
        }
      }
    }

    lemma NoneCovers(n: nat, q: nat, left: nat)
      requires CacheOk()
      requires n == |free.big| && PassedBy(free.big, cached, n, q, left) && left != 0
      ensures Uncovered(cached, q, left)
    {
      forall j | j in cached
        ensures Misses(cached[j], q, left)
      {
        var m :| 0 <= m < n && free.big[m] == j;
      }
    }

    lemma SwapFact()
      requires CacheOk()
      ensures free.big != [] ==> nextPageToSwap in free.big
    {
    }

    // --- the backing pool and the page buffers ---

    function DoRead(p: nat, n: nat): (d: seq<byte>)
      requires p + n <= store.Length
      reads store
      ensures |d| == n && forall j :: 0 <= j < n ==> d[j] == store[p + j]
    {
      store[p..p + n]
    }

    method DoWrite(d: seq<byte>, p: nat)
      requires p + |d| <= store.Length
      modifies store
      ensures Stored(old(store[..]), p, d, store[..])
    {
      forall j | 0 <= j < |d| { store[p + j] := d[j]; }
    }

    /** memcpy into a page buffer, beyond what the page holds as a window. */
    method Fill(x: Pid, off: nat, d: seq<byte>)
      requires Config() && Buffers(cached, held)
      requires IsPage(x) && off + |d| <= PageSize(x.c)
      requires x.c == BIG ==> x.i !in cached
      requires x in held ==> |held[x].data| <= off
      modifies Pool(x.c)
      ensures Buffers(cached, held)
      ensures forall j :: 0 <= j < PageSize(x.c) ==>
        Pool(x.c)[x.i, j] == if off <= j < off + |d| then d[j - off] else old(Pool(x.c)[x.i, j])
    {
      MemCpy(Pool(x.c), x.i, off, d);
      forall y | y in held
        ensures RowHas(Pool(y.c), y.i, held[y].data)
      {
        assert old(RowHas(Pool(y.c), y.i, held[y].data));
      }
    }

    /** memcpy into the buffer of a free big page, whose window takes on the bytes `data'`. */
    method PokeWindow(i: int, off: nat, d: seq<byte>, ghost data': seq<byte>)
      requires Config() && Buffers(cached, held)
      requires i in cached && |cached[i].data| == bigPool.Length1 && Pid(BIG, i) !in held
      requires Stored(cached[i].data, off, d, data') && off + |d| <= |cached[i].data|
      modifies this`cached, bigPool
      ensures Buffers(cached, held)
      ensures cached == old(cached)[i := old(cached[i]).(data := data')]
    {
      MemCpy(bigPool, i, off, d);
      forall j | j in cached && j != i
        ensures RowHas(bigPool, j, cached[j].data)
      {
        assert old(RowHas(bigPool, j, cached[j].data));
      }
      forall x | x in held
        ensures RowHas(Pool(x.c), x.i, held[x].data)
      {
        assert old(RowHas(Pool(x.c), x.i, held[x].data));
      }
      cached := cached[i := cached[i].(data := data')];
    }

    // --- big pages on the free list ---

    /** Overwrites the record of a free big page, except for its place on the list. */
    method SetIdle(i: int, pg: LockPage)
      requires Coupled()
      requires i in free.big && IdleFacts(i)
      requires pg.next == info.big.pages[i].next && pg.size == bigPool.Length1 && pg.locks == info.big.pages[i].locks
      requires pg.start == 0 || (i in cached && pg.start == cached[i].start)
      modifies this`info, this`cached
      ensures Coupled()
      ensures cached == if pg.start == 0 then old(cached) - {i} else old(cached)[i := old(cached)[i].(dirty := pg.dirty)]
      ensures IdleFacts(i) && info.big.pages[i].dirty == pg.dirty && info.big.pages[i].next == pg.next
      ensures info == old(info).WithPage(Pid(BIG, i), pg)
    {
      hide ListsOk, CachedOk, HeldOk, CountsOk;
      ghost var cached' := if pg.start == 0 then cached - {i} else cached[i := cached[i].(dirty := pg.dirty)];
      IdleKept(info, free, locked, nextPageToSwap, cached, held, counts, bigPool.Length1, store.Length, i, pg, cached');
      info := info.WithPage(Pid(BIG, i), pg);
      cached := cached';
    }

    /** Writes a big page back if it is dirty. */
    method SyncBigPage(i: int)
      requires CacheOk() && i in cached
      modifies this`info, this`cached, store
      ensures CacheOk()
      ensures cached == old(cached)[i := Clean(old(cached)[i])]
    {
      hide ListsOk, CachedOk, HeldOk, CountsOk, LayerOk;
      Idle(i);
      var pg := info.big.pages[i];
      if pg.dirty {
        DoWrite(Slice(bigPool, i, 0, Min(poolSize - pg.start, PageSize(BIG))), pg.start);
        WriteBack(cached, old(store[..]), base, i, store[..]);
        SetIdle(i, pg.(dirty := false, cleanSkips := 0));
      }
    }

    /** Writes a free big page back and empties it. */
    method Evict(i: int)
      requires CacheOk() && i in cached
      modifies this`info, this`cached, store
      ensures CacheOk()
      ensures cached == old(cached) - {i}
    {
      hide ListsOk, CachedOk, HeldOk, CountsOk, LayerOk, Buffers;
      SyncBigPage(i);
      Idle(i);
      Drop(cached, store[..], base, i);
      SetIdle(i, info.big.pages[i].(start := 0));
    }

    /** Fills a big page's buffer from the backing pool and makes it a window. */
    method ReadWindow(i: int, p: nat, ghost dirty: bool)
      requires Config() && Buffers(cached, held)
      requires 0 <= i < bigPool.Length0 && p < store.Length && Pid(BIG, i) !in held
      modifies this`cached, bigPool
      ensures Buffers(cached, held)
      ensures i in cached && cached == old(cached)[i := cached[i]]
      ensures cached[i].start == p && cached[i].dirty == dirty && |cached[i].data| == bigPool.Length1
      ensures Agrees(cached[i], store[..])
    {
      ghost var was, others := cached, cached - {i};
      cached := others;
      var n := Min(poolSize - p, PageSize(BIG));
      Fill(Pid(BIG, i), 0, DoRead(p, n));
      ghost var w := Window(p, Slice(bigPool, i, 0, bigPool.Length1), dirty);
      forall j | 0 <= j < |w.data| && p + j < store.Length
        ensures w.data[j] == store[p + j]
      {
        assert bigPool[i, 0 + j] == store[p + j];
      }
      assert forall j :: j in was && j != i ==> RowHas(bigPool, j, others[j].data);
      cached := was[i := w];
    }

    /** Moves a free big page, synchronized if it held anything, to the window at `p`. */
    method Load(i: int, p: nat)
      requires CacheOk()
      requires i in free.big && 1 <= p < store.Length
      requires i in cached ==> !cached[i].dirty
      requires forall j :: j in cached && j != i ==> Far(cached[j].start, p)
      modifies this`info, this`cached, bigPool
      ensures CacheOk()
      ensures i in cached && cached == old(cached)[i := cached[i]]
      ensures cached[i].start == p && |cached[i].data| == bigPool.Length1
    {
      hide ListsOk, CachedOk, HeldOk, CountsOk, LayerOk, Buffers;
      Idle(i);
      WindowFacts();
      var pg := info.big.pages[i].(start := p);
      info := info.WithPage(Pid(BIG, i), pg);
      ghost var was := cached;
      ReadWindow(i, p, pg.dirty);
      forall j | j in was && j != i
        ensures Apart(cached[i], was[j])
      {
        assert |was[j].data| == bigPool.Length1;
      }
      Reload(was, store[..], base, i, cached[i]);
      IdleKept(old(info), free, locked, nextPageToSwap, was, held, counts, bigPool.Length1, store.Length, i, pg, cached);
    }

    /** memcpy into the buffer of a dirty free big page. */
    method StoreWindow(i: int, off: nat, d: seq<byte>)
      requires CacheOk() && i in cached && cached[i].dirty
      requires off + |d| <= bigPool.Length1
      modifies this`cached, this`base, bigPool
      ensures CacheOk()
      ensures Stored(old(base), cached[i].start + off, d, base)
      ensures i in cached && cached == old(cached)[i := cached[i]]
      ensures cached[i].start == old(cached[i].start) && |cached[i].data| == old(|cached[i].data|) && cached[i].dirty
    {
      hide ListsOk, CachedOk, HeldOk, CountsOk, LayerOk, Buffers;
      Idle(i);
      ghost var w := cached[i];
      ghost var data', base' := Put(w.data, off, d), Put(base, w.start + off, d);
      StoreInside(cached, store[..], base, i, off, d, data', base');
      CachedRewritten(info, free, cached, bigPool.Length1, store.Length, i, w.(data := data'));
      PokeWindow(i, off, d, data');
      base := base';
    }

    /** doWrite where no free big page is. */
    method WriteUncovered(d: seq<byte>, q: nat)
      requires CacheOk() && Uncovered(cached, q, |d|) && q + |d| <= store.Length
      modifies this`base, store
      ensures CacheOk()
      ensures Stored(old(base), q, d, base)
    {
      hide ListsOk, CachedOk, HeldOk, CountsOk, LayerOk, Buffers;
      ghost var base' := Put(base, q, d);
      DoWrite(d, q);
      StoreBelow(cached, old(store[..]), base, q, d, store[..], base');
      base := base';
    }

    // --- finding bytes in the lower layer ---

    /** The first free big page that fits, or -1 when none does. */
    method FindFreePage(p: nat, size: nat, atstart: bool) returns (i: int)
      requires Coupled()
      ensures i == -1 || (i in cached && i in free.big && IdleFacts(i) && Fits(cached[i], p, size, atstart))
      ensures i == -1 ==> forall j :: j in cached ==> !Fits(cached[j], p, size, atstart)
    {
      hide Coupled, Fits;
      ghost var n := 0;
      WalkRecords(0);
      i := info.big.freeIndex;
      while i != -1
        invariant n <= |free.big| && i == At(free.big, n)
        invariant forall m :: 0 <= m < n && free.big[m] in cached ==> !Fits(cached[free.big[m]], p, size, atstart)
        decreases |free.big| - n
      {
        WalkRecords(n);
        var pg := info.big.pages[i];
        FitsIs(i, p, size, atstart);
        if pg.start != 0 && ((atstart && pg.start == p) || (!atstart && p >= pg.start && p + size <= pg.start + pg.size)) {
          return;
        }
        i := pg.next;
        n := n + 1;
      }
      WalkRecords(n);
      NoneFree(n, p, size, atstart);
    }

    lemma FitsIs(i: int, p: nat, size: nat, atstart: bool)
      requires IdleFacts(i)
      ensures var pg := info.big.pages[i];
              pg.start != 0 && ((atstart && pg.start == p) || (!atstart && p >= pg.start && p + size <= pg.start + pg.size))
              <==> i in cached && Fits(cached[i], p, size, atstart)
    {
    }

    lemma NoneFree(n: nat, p: nat, size: nat, atstart: bool)
      requires Coupled() && n == |free.big|
      requires forall m :: 0 <= m < n && free.big[m] in cached ==> !Fits(cached[free.big[m]], p, size, atstart)
      ensures forall j :: j in cached ==> !Fits(cached[j], p, size, atstart)
    {
      hide Fits;
      WindowFacts();
      hide Coupled;
    }

    /** Chooses the page to load the window at `p` into, when no free big page fits it:
        clears out every page that overlaps, and takes one of those, else an empty page,
        else a clean one, else the next in turn. */
    method FindVictim(p: nat) returns (pageindex: int, found: int)
      requires CacheOk() && free.big != []
      modifies this`info, this`cached, store
      ensures CacheOk()
      ensures GOTPARTIAL <= found < GOTNONE && pageindex in free.big
      ensures Best(pageindex, found, free.big, |free.big|, p, bigPool.Length1, old(cached), nextPageToSwap)
      ensures found == GOTCLEAN ==> pageindex in old(cached) && (!old(cached)[pageindex].dirty || Skips(pageindex) >= PAGE_MAX_CLEAN_SKIPS)
      ensures Emptied(free.big, |free.big|, p, bigPool.Length1, old(cached), cached)
      ensures NoNewWindows(old(cached), cached)
      ensures forall j :: j in cached ==> Far(cached[j].start, p)
    {
      hide CacheOk, Best, Emptied, Hit;
      pageindex, found := -1, GOTNONE;
      var newpageend := p + PageSize(BIG);
      ghost var n := 0;
      BestBegins(free.big, p, bigPool.Length1, cached, nextPageToSwap);
      Walk(0);
      var i := info.big.freeIndex;
      while i != -1
        invariant CacheOk()
        invariant n <= |free.big| && i == At(free.big, n)
        invariant GOTPARTIAL <= found <= GOTNONE
        invariant Best(pageindex, found, free.big, n, p, bigPool.Length1, old(cached), nextPageToSwap)
        invariant Emptied(free.big, n, p, bigPool.Length1, old(cached), cached)
        invariant found == GOTCLEAN ==> pageindex in old(cached) && (!old(cached)[pageindex].dirty || Skips(pageindex) >= PAGE_MAX_CLEAN_SKIPS)
        decreases |free.big| - n
      {
        Walk(n);
        StillThere(n, p, old(cached));
        ghost var pageindex0, found0, mid := pageindex, found, cached;
        var pg := info.big.pages[i];
        if pg.start != 0 {
          var pageend := pg.start + PageSize(BIG);
          HitIs(pg.start, p);
          if (p >= pg.start && p < pageend) || (newpageend >= pg.start && newpageend <= pageend) {
            pageindex, found := i, GOTPARTIAL;
            Evict(i);
          }
        } else if found != GOTPARTIAL {
          pageindex, found := i, GOTEMPTY;
        }
        if found > GOTCLEAN {
          var take := !pg.dirty;
          if pg.dirty {
            take := Skip(i);
          }
          if take {
            pageindex, found := i, GOTCLEAN;
          } else if found != GOTDIRTY && i == nextPageToSwap {
            pageindex, found := i, GOTDIRTY;
          }
        }
        BestNext(pageindex0, found0, free.big, n, p, bigPool.Length1, old(cached), nextPageToSwap, pageindex, found);
        EmptiedNext(free.big, n, p, bigPool.Length1, old(cached), mid, cached);
        Walk(n);
        i := info.big.pages[i].next;
        n := n + 1;
      }
      Walk(n);
      SwapFact();
      BestIs(pageindex, found, p, old(cached));
      AllFar(n, p, old(cached));
    }

    lemma StillThere(n: nat, p: nat, before: map<int, Window>)
      requires CacheOk() && Emptied(free.big, n, p, bigPool.Length1, before, cached)
      ensures n < |free.big| ==> var i := free.big[n];
              && (i in cached <==> i in before) && (i in cached ==> cached[i] == before[i])
    {
    }

    lemma HitIs(start: nat, p: nat)
      ensures Hit(start, p, bigPool.Length1) <==>
              (p >= start && p < start + PageSize(BIG)) || (p + PageSize(BIG) >= start && p + PageSize(BIG) <= start + PageSize(BIG))
    {
    }

    lemma BestIs(i: int, found: int, p: nat, before: map<int, Window>)
      requires CacheOk() && nextPageToSwap in free.big && Best(i, found, free.big, |free.big|, p, bigPool.Length1, before, nextPageToSwap)
      ensures found < GOTNONE && i in free.big
    {
      hide CacheOk;
    }

    lemma AllFar(n: nat, p: nat, before: map<int, Window>)
      requires CacheOk() && n == |free.big| && Emptied(free.big, n, p, bigPool.Length1, before, cached)
      ensures forall j :: j in cached ==> Far(cached[j].start, p)
      ensures NoNewWindows(before, cached)
    {
      forall j | j in cached
        ensures Far(cached[j].start, p)
      {
        assert j in free.big;
        var m :| 0 <= m < |free.big| && free.big[m] == j;
        assert free.big[m] in cached;
      }
    }

    /** How often a big page has been passed over. */
    ghost function Skips(i: int): int
      reads this`info
    {
      if 0 <= i < |info.big.pages| then info.big.pages[i].cleanSkips else 0
    }

    /** Passes over a dirty page once more; true when it has been passed over too often. */
    method Skip(i: int) returns (take: bool)
      requires CacheOk() && i in cached
      modifies this`info, this`cached
      ensures CacheOk() && cached == old(cached)
      ensures 0 <= i < |old(info).big.pages| && info == old(info).WithPage(Pid(BIG, i), info.Page(Pid(BIG, i)))
      ensures Skips(i) == (old(info).big.pages[i].cleanSkips + 1) % 256 && (take <==> Skips(i) >= PAGE_MAX_CLEAN_SKIPS)
    {
      hide ListsOk, CachedOk, HeldOk, CountsOk, LayerOk, Buffers;
      Idle(i);
      var pg := info.big.pages[i];
      var skips := (pg.cleanSkips + 1) % 256;
      SetIdle(i, pg.(cleanSkips := skips));
      assert cached == old(cached);
      take := skips >= PAGE_MAX_CLEAN_SKIPS;
    }

    /** The next in turn is the page after one swapped in its turn, and else the first of the list. */
    method MoveSwap(pageindex: int, wasDirty: bool)
      requires CacheOk() && pageindex in free.big
      modifies this`nextPageToSwap
      ensures CacheOk()
      ensures forall m :: 0 <= m < |free.big| && free.big[m] == pageindex ==>
        nextPageToSwap == free.big[if wasDirty && m + 1 < |free.big| then m + 1 else 0]
    {
      hide ListsOk, CachedOk, HeldOk, CountsOk, LayerOk, Buffers;
      ghost var m := Position(pageindex);
      Walk(m);
      Walk(m + 1);
      SwapStays(info, free, locked, nextPageToSwap, pageindex);
      if wasDirty {
        nextPageToSwap := info.big.pages[pageindex].next;
        if nextPageToSwap == -1 {
          nextPageToSwap := info.big.freeIndex;
        }
      } else {
        nextPageToSwap := info.big.freeIndex;
      }
    }

    /** Makes a free big page hold [p, p + size), and says which and where.  Nothing seen
        through the free big pages changes. */
    method PullRawData(p: nat, size: nat, readonly: bool, forcestart: bool) returns (pageindex: int, offset: nat)
      requires CacheOk() && free.big != []
      requires 1 <= p < store.Length && p + size <= store.Length && size <= bigPool.Length1
      modifies this`info, this`cached, this`nextPageToSwap, store, bigPool
      ensures CacheOk()
      ensures pageindex in cached && pageindex in free.big && IdleFacts(pageindex)
      ensures cached[pageindex].start + offset == p && offset + size <= bigPool.Length1
      ensures 0 <= pageindex < bigPool.Length0 && p + size <= |base| && Slice(bigPool, pageindex, offset, size) == base[p..p + size]
      ensures forcestart ==> offset == 0
      ensures !readonly ==> cached[pageindex].dirty
      ensures Pulled(pageindex, p, size, forcestart, readonly, bigPool.Length1, old(cached), cached)
      ensures NoNewWindows(old(cached), cached - {pageindex})
    {
      hide ListsOk, CachedOk, HeldOk, CountsOk, LayerOk, Buffers, Slice, Pulled, Emptied;
      WindowFacts();
      pageindex := FindFreePage(p, size, forcestart);
      ghost var fits, mid := pageindex != -1, cached;
      if pageindex == -1 {
        pageindex, mid := Swap(p);
      }
      Idle(pageindex);
      if !readonly {
        MarkDirty(cached, store[..], base, pageindex);
        SetIdle(pageindex, info.big.pages[pageindex].(dirty := true));
      }
      if fits {
        PulledFound(pageindex, p, size, forcestart, readonly, bigPool.Length1, old(cached), cached);
      } else {
        PulledAnew(pageindex, p, size, forcestart, readonly, bigPool.Length1, free.big, old(cached), mid, cached);
      }
      offset := p - info.big.pages[pageindex].start;
      CachedShows(pageindex, offset, size);
    }

    /** Chooses a page, and loads the window at `p` into it. */
    method Swap(p: nat) returns (pageindex: int, ghost mid: map<int, Window>)
      requires CacheOk() && free.big != [] && 1 <= p < store.Length
      modifies this`info, this`cached, this`nextPageToSwap, store, bigPool
      ensures CacheOk()
      ensures pageindex in free.big && pageindex in cached && cached[pageindex].start == p && |cached[pageindex].data| == bigPool.Length1
      ensures Emptied(free.big, |free.big|, p, bigPool.Length1, old(cached), mid) && cached == mid[pageindex := cached[pageindex]]
      ensures NoNewWindows(old(cached), cached - {pageindex})
    {
      hide ListsOk, CachedOk, HeldOk, CountsOk, LayerOk, Buffers, Best, Emptied;
      var found;
      pageindex, found := FindVictim(p);
      mid := cached;
      Idle(pageindex);
      if info.big.pages[pageindex].start != 0 {
        SyncBigPage(pageindex);
      }
      MoveSwap(pageindex, found == GOTDIRTY);
      Load(pageindex, p);
    }

    /** memcpy into the lower layer. */
    method PushRawData(p: nat, d: seq<byte>)
      requires CacheOk() && free.big != []
      requires 1 <= p < store.Length && p + |d| <= store.Length && |d| <= bigPool.Length1
      modifies this`info, this`cached, this`nextPageToSwap, this`base, store, bigPool
      ensures CacheOk()
      ensures Stored(old(base), p, d, base)
    {
      hide CacheOk;
      var pageindex, offset := PullRawData(p, |d|, false, false);
      StoreWindow(pageindex, offset, d);
    }

    /** memcpy from the buffer of a free big page into another page's buffer. */
    method CopyFromPage(x: Pid, dest: nat, i: int, offset: nat, n: nat)
      requires CacheOk() && IsPage(x) && i in cached && IdleFacts(i)
      requires dest + n <= PageSize(x.c) && offset + n <= bigPool.Length1 && cached[i].start + offset + n <= |base|
      requires x.c == BIG ==> x.i !in cached
      requires x in held ==> |held[x].data| <= dest
      modifies Pool(x.c)
      ensures CacheOk()
      ensures forall j :: 0 <= j < PageSize(x.c) ==>
        Pool(x.c)[x.i, j] == if dest <= j < dest + n then base[cached[i].start + offset + j - dest] else old(Pool(x.c)[x.i, j])
    {
      hide ListsOk, CachedOk, HeldOk, CountsOk, LayerOk, Buffers;
      RowShowsBase(i);
      Fill(x, dest, Slice(bigPool, i, offset, n));
    }

    /** doRead where no free big page is. */
    method CopyUncovered(x: Pid, dest: nat, q: nat, n: nat)
      requires CacheOk() && IsPage(x) && Uncovered(cached, q, n)
      requires dest + n <= PageSize(x.c) && q + n <= |base|
      requires x.c == BIG ==> x.i !in cached
      requires x in held ==> |held[x].data| <= dest
      modifies Pool(x.c)
      ensures CacheOk()
      ensures forall j :: 0 <= j < PageSize(x.c) ==>
        Pool(x.c)[x.i, j] == if dest <= j < dest + n then base[q + j - dest] else old(Pool(x.c)[x.i, j])
    {
      hide ListsOk, CachedOk, HeldOk, CountsOk, LayerOk, Buffers;
      UncoveredShowsBelow(cached, store[..], base, q, n);
      Fill(x, dest, DoRead(q, n));
    }

    /** Copies [p, p + size) into a page buffer from wherever its bytes are: free big pages
        that hold some of them, and the backing pool for the rest. */
    method CopyRawData(x: Pid, off: nat, p: nat, size: nat)
      requires CacheOk() && IsPage(x)
      requires 1 <= p && p + size <= |base| && size <= bigPool.Length1 && off + size <= PageSize(x.c)
      requires x.c == BIG ==> x.i !in cached
      requires x in held ==> |held[x].data| <= off
      modifies Pool(x.c)
      ensures CacheOk()
      ensures forall j :: 0 <= j < PageSize(x.c) ==>
        Pool(x.c)[x.i, j] == if off <= j < off + size then base[p + j - off] else old(Pool(x.c)[x.i, j])
    {
      hide CacheOk, PassedBy, NoNewWindows;
      NonePassed(free.big, cached, p, size);
      NoneNewSelf(cached);
      var dest: nat, q: nat, left: nat := off, p, size;
      ghost var n := 0;
      Walk(0);
      var i := info.big.freeIndex;
      while i != -1 && left != 0
        invariant CacheOk()
        invariant n <= |free.big| && i == At(free.big, n)
        invariant p <= q && q + left <= p + size && dest == off + (q - p)
        invariant PassedBy(free.big, cached, n, q, left)
        invariant forall j :: 0 <= j < PageSize(x.c) ==>
          Pool(x.c)[x.i, j] == if off <= j < dest || dest + left <= j < off + size then base[p + j - off] else old(Pool(x.c)[x.i, j])
        decreases |free.big| - n
      {
        Walk(n);
        var pg := info.big.pages[i];
        ghost var q0, left0 := q, left;
        if pg.start != 0 {
          var pageend := pg.start + PageSize(BIG);
          if q >= pg.start && q < pageend {
            var offset := q - pg.start;
            var copysize := Min(left, pg.size - offset);
            CopyFromPage(x, dest, i, offset, copysize);
            dest := dest + copysize;
            q := q + copysize;
            left := left - copysize;
          } else if q < pg.start && q + left > pg.start {
            var offset := pg.start - q;
            var copysize := Min(left - offset, pg.size);
            CopyFromPage(x, dest + offset, i, 0, copysize);
            left := offset;
          }
        }
        PassedOne(free.big, cached, cached, n, q0, left0, q, left);
        i := pg.next;
        n := n + 1;
      }
      if left > 0 {
        Walk(n);
        NoneCovers(n, q, left);
        CopyUncovered(x, dest, q, left);
      }
    }

    /** Saves bytes into a free big page, which stays clean if they were there already. */
    method SaveToPage(i: int, off: nat, d: seq<byte>)
      requires CacheOk() && i in cached
      requires off + |d| <= bigPool.Length1
      modifies this`info, this`cached, this`base, bigPool
      ensures CacheOk()
      ensures Stored(old(base), old(cached[i].start) + off, d, base)
      ensures NoNewWindows(old(cached), cached)
      ensures !old(cached)[i].dirty && Present(old(base), old(cached)[i].start + off, d) ==> cached == old(cached)
    {
      hide ListsOk, CachedOk, HeldOk, CountsOk, LayerOk, Buffers;
      Idle(i);
      WindowFacts();
      SliceShown(i, off, d);
      if info.big.pages[i].dirty || Slice(bigPool, i, off, |d|) != d {
        MarkDirty(cached, store[..], base, i);
        SetIdle(i, info.big.pages[i].(dirty := true));
        StoreWindow(i, off, d);
      } else {
        RowShowsBase(i);
      }
    }

    /** The bytes `d` are in memory `m` at `p`. */
    ghost predicate Present(m: seq<byte>, p: nat, d: seq<byte>) { p + |d| <= |m| && m[p..p + |d|] == d }

    lemma SliceShown(i: int, off: nat, d: seq<byte>)
      requires CacheOk() && i in cached && off + |d| <= bigPool.Length1 && 0 <= i < bigPool.Length0
      ensures Present(base, cached[i].start + off, d) ==> Slice(bigPool, i, off, |d|) == d
    {
      hide ListsOk, CachedOk, HeldOk, CountsOk, LayerOk, Buffers, Slice;
      RowShowsBase(i);
      if Present(base, cached[i].start + off, d) {
        var s, p := Slice(bigPool, i, off, |d|), cached[i].start + off;
        forall k | 0 <= k < |d|
          ensures s[k] == d[k]
        {
          assert bigPool[i, off + k] == base[cached[i].start + (off + k)] == base[p..p + |d|][k];
        }
      }
    }

    /** Saves bytes into whatever free big pages hold their addresses, and writes the rest
        to the backing pool. */
    method SaveRawData(src: seq<byte>, p: nat)
      requires CacheOk()
      requires 1 <= p && p + |src| <= |base| && |src| <= bigPool.Length1
      modifies this`info, this`cached, this`base, store, bigPool
      ensures CacheOk()
      ensures Stored(old(base), p, src, base)
      ensures NoNewWindows(old(cached), cached)
    {
      hide CacheOk, Stored, StoredBut, PassedBy, NoNewWindows, Present;
      NonePassed(free.big, cached, p, |src|);
      NoneNewSelf(cached);
      StoreNoneAndAll(base, p, src, p, base);
      var s: nat, q: nat, left: nat := 0, p, |src|;
      ghost var n := 0;
      Walk(0);
      var i := info.big.freeIndex;
      while i != -1 && left != 0
        invariant CacheOk()
        invariant n <= |free.big| && i == At(free.big, n)
        invariant s == q - p && s + left <= |src|
        invariant NoNewWindows(old(cached), cached)
        invariant PassedBy(free.big, cached, n, q, left)
        invariant StoredBut(old(base), p, src, q, left, base)
        decreases |free.big| - n
      {
        Walk(n);
        var pg := info.big.pages[i];
        ghost var mid, windows, q0, left0 := base, cached, q, left;
        NoneNewSelf(cached);
        if pg.start != 0 {
          var pageend := pg.start + PageSize(BIG);
          if q >= pg.start && q < pageend {
            var offset := q - pg.start;
            var copysize := Min(left, pg.size - offset);
            SaveToPage(i, offset, src[s..s + copysize]);
            StoreMore(old(base), p, src, q, left, mid, q, copysize, base);
            s := s + copysize;
            q := q + copysize;
            left := left - copysize;
          } else if q < pg.start && q + left > pg.start {
            var offset := pg.start - q;
            var copysize := Min(left - offset, pg.size);
            SaveToPage(i, 0, src[s + offset..s + offset + copysize]);
            StoreMore(old(base), p, src, q, left, mid, pg.start, copysize, base);
            left := offset;
          }
        }
        PassedOne(free.big, windows, cached, n, q0, left0, q, left);
        NoneNew(old(cached), windows, cached);
        Walk(n);
        i := info.big.pages[i].next;
        n := n + 1;
      }
      if left > 0 {
        Walk(n);
        ghost var mid := base;
        NoneCovers(n, q, left);
        WriteUncovered(src[s..s + left], q);
        StoreMore(old(base), p, src, q, left, mid, q, left, base);
      }
      StoreNoneAndAll(old(base), p, src, q + left, base);
    }

    /** What is saved can be copied back, whichever free big pages hold its addresses. */
    method SaveThenCopy(src: seq<byte>, p: nat, x: Pid, off: nat)
      requires CacheOk() && IsPage(x)
      requires 1 <= p && p + |src| <= |base| && |src| <= bigPool.Length1 && off + |src| <= PageSize(x.c)
      requires x.c == BIG ==> x.i !in cached
      requires x in held ==> |held[x].data| <= off
      modifies this`info, this`cached, this`base, store, bigPool, Pool(x.c)
      ensures CacheOk()
      ensures Slice(Pool(x.c), x.i, off, |src|) == src
    {
      hide CacheOk, NoNewWindows;
      ghost var windows := cached;
      SaveRawData(src, p);
      StillNotCached(windows, x.i);
      CopyRawData(x, off, p, |src|);
    }

    lemma StillNotCached(windows: map<int, Window>, i: int)
      requires NoNewWindows(windows, cached)
      ensures i !in windows ==> i !in cached
    {
    }

    // --- locked pages: the upper layer ---

    /** What is known of a held page. */
    ghost predicate HeldFacts(x: Pid)
      reads this`info, this`free, this`locked, this`cached, this`held, this`counts
    {
      && x in held && IsPage(x) && info.Has(x) && x.i in locked.Of(x.c) && x in counts
      && !(x.c == BIG && (x.i in free.big || x.i in cached))
      && 1 <= held[x].start == info.Page(x).start
      && held[x].dirty == info.Page(x).dirty
      && 1 <= |held[x].data| == info.Page(x).size <= PageSize(x.c) <= bigPool.Length1
      && held[x].start + |held[x].data| <= store.Length
      && info.Page(x).locks == counts[x]
    }

    lemma HeldFact(x: Pid)
      requires Coupled() && x in held
      ensures HeldFacts(x)
      ensures Slice(Pool(x.c), x.i, 0, |held[x].data|) == held[x].data
      ensures RowHas(Pool(x.c), x.i, held[x].data)
    {
      assert Partition(info.Of(x.c), free.Of(x.c), locked.Of(x.c));
      HeldBytes(x);
    }

    lemma HeldBytes(x: Pid)
      requires Buffers(cached, held) && x in held
      ensures IsPage(x) && |held[x].data| <= PageSize(x.c)
      ensures Slice(Pool(x.c), x.i, 0, |held[x].data|) == held[x].data
    {
      var r := Slice(Pool(x.c), x.i, 0, |held[x].data|);
      assert forall j :: 0 <= j < |r| ==> r[j] == Pool(x.c)[x.i, 0 + j];
    }

    /** Changes the record of a page on a locked list that is not held. */
    method SetRecord(x: Pid, pg: LockPage)
      requires Coupled()
      requires info.Has(x) && x !in held && x.i in locked.Of(x.c)
      requires pg.next == info.Page(x).next && pg.locks == info.Page(x).locks
      modifies this`info
      ensures Coupled()
      ensures info.Has(x) && info.Page(x) == pg
    {
      LockedIsNotFree(info, free, locked, nextPageToSwap, x);
      hide ListsOk, CachedOk, HeldOk, CountsOk, Buffers;
      ListsKept(info, free, locked, nextPageToSwap, x, pg);
      CachedElsewhere(info, free, cached, bigPool.Length1, store.Length, x, pg);
      HeldKept(info, locked, held, store.Length, x, pg);
      CountsKept(info, held, counts, x, pg);
      WithPageOnlyChanges(info, x, pg);
      info := info.WithPage(x, pg);
    }

    lemma BuffersHeld(x: Pid, w: Window)
      requires Buffers(cached, held) && x.c < 3 && RowHas(Pool(x.c), x.i, w.data)
      ensures Buffers(cached, held[x := w])
    {
    }

    /** Gives a page on a locked list a record and the window that goes with it. */
    method SetHeld(x: Pid, pg: LockPage, ghost w: Window)
      requires Coupled()
      requires info.Has(x) && x.i in locked.Of(x.c) && pg.next == info.Page(x).next
      requires 1 <= w.start == pg.start && w.dirty == pg.dirty && 1 <= |w.data| == pg.size && w.start + |w.data| <= store.Length
      requires RowHas(Pool(x.c), x.i, w.data)
      modifies this`info, this`held, this`counts
      ensures Coupled()
      ensures held == old(held)[x := w] && counts == old(counts)[x := pg.locks]
      ensures info.Has(x) && info.Page(x) == pg
    {
      hide ListsOk, CachedOk, HeldOk, CountsOk, Buffers, RowHas;
      LockedSet(info, free, locked, nextPageToSwap, cached, held, counts, bigPool.Length1, store.Length, x, pg, w);
      BuffersHeld(x, w);
      info := info.WithPage(x, pg);
      held := held[x := w];
      counts := counts[x := pg.locks];
    }

    /** Saves what a locked page holds to the lower layer, if it is dirty. */
    method SyncLockedPage(x: Pid)
      requires CacheOk() && LayerOk(held, base, mem) && x in held
      modifies this`info, this`cached, this`base, store, bigPool
      ensures CacheOk() && LayerOk(held, base, mem)
      ensures NoNewWindows(old(cached), cached)
      ensures forall a :: 0 <= a < |mem| && held[x].Covers(a) ==> base[a] == mem[a]
    {
      HeldFact(x);
      hide CacheOk, LayerOk, Slice;
      Walk(0);
      var pg := info.Page(x);
      if pg.dirty {
        ghost var was := base;
        SaveRawData(Slice(Pool(x.c), x.i, 0, pg.size), pg.start);
        SaveDown(held, was, mem, x, base);
      } else {
        CleanShowsBelow(held, base, mem, x);
      }
    }

    /** Puts a free page in front of the locked list of its class. */
    method LinkLocked(c: nat, index: int, ghost m: nat)
      requires ListsOk(info, free, locked, nextPageToSwap)
      requires c < 3 && m < |free.Of(c)| && free.Of(c)[m] == index
      modifies this`info, this`nextPageToSwap, this`free, this`locked
      ensures ListsOk(info, free, locked, nextPageToSwap)
      ensures SameButNext(old(info), info)
      ensures locked == old(locked).With(c, [index] + old(locked.Of(c)))
      ensures free == old(free).With(c, Without(old(free.Of(c)), m))
      ensures forall j :: j in free.Of(c) <==> j in old(free.Of(c)) && j != index
    {
      hide SameButNext, Relisted, ListsOk, Threads, Without;
      PartitionOf(c);
      var pinfo := Relist(info.Of(c), false, index, free.Of(c), m);
      hide Partition;
      ListsAfterLock(info, free, locked, nextPageToSwap, c, m, info.With(c, pinfo));
      RelistedRecords(info, c, false, free.Of(c), m);
      if c == BIG && nextPageToSwap == index {
        nextPageToSwap := pinfo.freeIndex;
      }
      info := info.With(c, pinfo);
      free, locked := free.With(c, Without(free.Of(c), m)), locked.With(c, [index] + locked.Of(c));
    }

    lemma PartitionOf(c: nat)
      requires ListsOk(info, free, locked, nextPageToSwap) && c < 3
      ensures Partition(info.Of(c), free.Of(c), locked.Of(c))
      ensures forall j :: 0 <= j < |free.Of(c)| ==> 0 <= free.Of(c)[j] < |info.Of(c).pages|
    {
    }

    /** Puts a locked page in front of the free list of its class, and returns the page
        that followed it on the locked list. */
    method LinkFree(c: nat, index: int, ghost m: nat) returns (ret: int)
      requires ListsOk(info, free, locked, nextPageToSwap)
      requires c < 3 && m < |locked.Of(c)| && locked.Of(c)[m] == index
      modifies this`info, this`nextPageToSwap, this`free, this`locked
      ensures ListsOk(info, free, locked, nextPageToSwap)
      ensures SameButNext(old(info), info)
      ensures free == old(free).With(c, [index] + old(free.Of(c)))
      ensures locked == old(locked).With(c, Without(old(locked.Of(c)), m))
      ensures forall j :: j in locked.Of(c) <==> j in old(locked.Of(c)) && j != index
      ensures ret == At(old(locked.Of(c)), m + 1)
    {
      hide SameButNext, Relisted;
      assert Partition(info.Of(c), free.Of(c), locked.Of(c));
      hide ListsOk;
      ret := info.Of(c).pages[index].next;
      var pinfo := Relist(info.Of(c), true, index, locked.Of(c), m);
      hide Partition, Threads, Without;
      ListsAfterFree(info, free, locked, nextPageToSwap, c, m, info.With(c, pinfo));
      RelistedRecords(info, c, true, locked.Of(c), m);
      info := info.With(c, pinfo);
      if c == BIG && nextPageToSwap == -1 {
        nextPageToSwap := index;
      }
      free, locked := free.With(c, [index] + free.Of(c)), locked.With(c, Without(locked.Of(c), m));
    }

    /** The free small or medium page that is first on its list, moved to the locked list. */
    method LockSmall(c: nat) returns (index: int)
      requires CacheOk() && c < BIG && free.Of(c) != []
      modifies this`info, this`nextPageToSwap, this`free, this`locked
      ensures CacheOk()
      ensures IsPage(Pid(c, index)) && info.Has(Pid(c, index)) && Pid(c, index) !in held
      ensures locked == old(locked).With(c, [index] + old(locked.Of(c)))
    {
      hide ListsOk, CachedOk, HeldOk, CountsOk, LayerOk, Buffers, SameButNext, Without;
      FirstFree(c);
      index := info.Of(c).freeIndex;
      LinkLocked(c, index, 0);
      StateAfterLock(old(info), old(free), old(locked), cached, held, counts, bigPool.Length1, store.Length, c, index, info, free);
      SameCounts(old(info), info);
    }

    lemma FirstFree(c: nat)
      requires Coupled() && c < 3
      ensures info.Of(c).freeIndex == At(free.Of(c), 0)
      ensures free.Of(c) != [] ==>
                var x := Pid(c, free.Of(c)[0]);
                IsPage(x) && info.Has(x) && x !in held
    {
      assert Partition(info.Of(c), free.Of(c), locked.Of(c));
      if free.Of(c) != [] {
        assert free.Of(c)[0] in free.Of(c);
      }
    }

    /** Takes a big page with its window off the free list and puts it on the locked list.
        Where it covered it no longer shows: the lower layer falls back to the pool. */
    method Detain(index: int)
      requires CacheOk() && index in cached
      modifies this`info, this`nextPageToSwap, this`free, this`locked, this`cached, this`base
      ensures CacheOk()
      ensures IsPage(Pid(BIG, index)) && info.Has(Pid(BIG, index)) && Pid(BIG, index) !in held
      ensures locked == old(locked).With(BIG, [index] + old(locked.Of(BIG)))
      ensures cached == old(cached) - {index}
      ensures base == Uncover(old(base), old(cached)[index], store[..])
      ensures info.big.pages[index].start == old(cached)[index].start && info.big.pages[index].dirty == old(cached)[index].dirty
      ensures old(cached)[index].dirty || base == old(base)
    {
      hide ListsOk, CachedOk, HeldOk, CountsOk, LayerOk, Buffers, SameButNext, Without;
      Idle(index);
      BaseSize();
      ghost var m := Position(index);
      LinkLocked(BIG, index, m);
      StateAfterLock(old(info), old(free), old(locked), cached, held, counts, bigPool.Length1, store.Length, BIG, index, info, free);
      SameCounts(old(info), info);
      ghost var base' := Uncover(base, cached[index], store[..]);
      Detach(cached, store[..], base, index, base');
      if !cached[index].dirty {
        CleanShowsBelow(cached, store[..], base, index);
        assert base' == base;
      }
      BuffersDropped(index);
      base := base';
      cached := cached - {index};
    }

    lemma BaseSize()
      requires LayerOk(cached, store[..], base)
      ensures |base| == store.Length
    {
    }

    lemma BuffersDropped(index: int)
      requires Buffers(cached, held)
      ensures Buffers(cached - {index}, held)
    {
    }

    ghost function Position(index: int): (m: nat)
      requires CacheOk() && index in free.big
      reads this, store, smallPool, mediumPool, bigPool
      ensures m < |free.big| && free.big[m] == index
      ensures forall j :: j in Without(free.big, m) <==> j in free.big && j != index
    {
      var m :| 0 <= m < |free.big| && free.big[m] == index;
      RestOfList(info.Of(BIG), free.Of(BIG), locked.Of(BIG), m);
      m
    }

    lemma SameStartSamePage(i: int, j: int)
      requires CacheOk() && i in cached && j in cached && cached[i].start == cached[j].start
      ensures i == j
    {
      ApartUnlessSame(cached, i, j);
    }

    /** The big page that now holds [ptr, ptr + size) from its first byte on, moved to the
        locked list. */
    method LockBig(ptr: nat, size: nat) returns (index: int)
      requires CacheOk() && free.big != []
      requires 1 <= ptr && 1 <= size <= bigPool.Length1 && ptr + size <= store.Length
      modifies this`info, this`nextPageToSwap, this`free, this`locked, this`cached, this`base, store, bigPool
      ensures CacheOk()
      ensures IsPage(Pid(BIG, index)) && info.Has(Pid(BIG, index)) && Pid(BIG, index) !in held && index !in cached
      ensures locked == old(locked).With(BIG, [index] + old(locked.Of(BIG)))
      ensures forall j :: 0 <= j < size ==> bigPool[index, j] == old(base)[ptr + j]
      ensures |base| == |old(base)|
      ensures forall a :: 0 <= a < |base| ==>
        base[a] == old(base)[a] || (size == bigPool.Length1 && info.big.pages[index].dirty && ptr <= a < ptr + size)
      ensures NoNewWindows(old(cached), cached)
      ensures forall j :: j in cached ==> Far(cached[j].start, ptr)
    {
      hide CacheOk;
      index := PullBig(ptr, size);
      if size < PageSize(BIG) {
        SyncBigPage(index);
      }
      RowShowsBase(index);
      OthersFar(index);
      Walk(0);
      Detain(index);
    }

    /** Makes a free big page begin at `ptr`, and finds it again. */
    method PullBig(ptr: nat, size: nat) returns (index: int)
      requires CacheOk() && free.big != []
      requires 1 <= ptr && 1 <= size <= bigPool.Length1 && ptr + size <= store.Length
      modifies this`info, this`cached, this`nextPageToSwap, store, bigPool
      ensures CacheOk() && index in cached && index in free.big && cached[index].start == ptr
      ensures NoNewWindows(old(cached), cached - {index})
    {
      hide CacheOk, Coupled, Pulled, Slice;
      var pageindex, offset := PullRawData(ptr, size, true, true);
      CacheIsCoupled();
      index := FindFreePage(ptr, size, true);
      SameStartSamePage(index, pageindex);
    }

    lemma OthersFar(i: int)
      requires CacheOk() && i in cached
      ensures |cached[i].data| == bigPool.Length1
      ensures forall j :: j in cached && j != i ==> Far(cached[j].start, cached[i].start)
    {
      forall j | j in cached && j != i
        ensures Far(cached[j].start, cached[i].start)
      {
        assert Apart(cached[i], cached[j]);
      }
    }

    /** Takes a free page of a class, and puts it on the locked list.  A big page comes
        holding [ptr, ptr + size) already. */
    method LockPage(c: nat, ptr: nat, size: nat) returns (index: int)
      requires CacheOk() && c < 3 && free.Of(c) != []
      requires 1 <= ptr && 1 <= size <= PageSize(c) && ptr + size <= store.Length
      modifies this`info, this`nextPageToSwap, this`free, this`locked, this`cached, this`base, store, bigPool
      ensures CacheOk()
      ensures var x := Pid(c, index); IsPage(x) && info.Has(x) && x !in held && (c == BIG ==> index !in cached)
      ensures locked == old(locked).With(c, [index] + old(locked.Of(c)))
      ensures c == BIG ==> forall j :: 0 <= j < size ==> bigPool[index, j] == old(base)[ptr + j]
      ensures |base| == |old(base)|
      ensures forall a :: 0 <= a < |base| ==>
        base[a] == old(base)[a] || (c == BIG && size == bigPool.Length1 && info.big.pages[index].dirty && ptr <= a < ptr + size)
      ensures NoNewWindows(old(cached), cached)
      ensures c == BIG ==> forall j :: j in cached ==> Far(cached[j].start, ptr)
    {
      hide CacheOk;
      if c == BIG {
        index := LockBig(ptr, size);
      } else {
        index := LockSmall(c);
      }
    }

    /** Turns a page on the locked list whose buffer has been filled into a held one. */
    method Hold(x: Pid, ptr: nat, size: nat, ghost was: seq<byte>)
      requires CacheOk() && LayerOk(held, was, mem)
      requires IsPage(x) && info.Has(x) && x !in held && x.i in locked.Of(x.c)
      requires 1 <= ptr && 1 <= size <= PageSize(x.c) && ptr + size <= |was| == store.Length
      requires Uncovered(held, ptr, size)
      requires forall j :: 0 <= j < size ==> Pool(x.c)[x.i, j] == was[ptr + j]
      requires |base| == |was| && forall a :: 0 <= a < |was| ==> base[a] == was[a] || (info.Page(x).dirty && ptr <= a < ptr + size)
      modifies this`info, this`held, this`counts
      ensures CacheOk() && LayerOk(held, base, mem)
      ensures x in held && held == old(held)[x := held[x]]
      ensures held[x].start == ptr && |held[x].data| == size && held[x].dirty == old(info).Page(x).dirty
      ensures counts == old(counts) && x in counts && counts[x] == 0
    {
      hide ListsOk, CachedOk, HeldOk, CountsOk, LayerOk, Buffers;
      var pg := info.Page(x).(start := ptr, size := size);
      ghost var w := Window(ptr, Slice(Pool(x.c), x.i, 0, size), pg.dirty);
      Held(x, w, was);
      UnheldCount(x);
      SetHeld(x, pg, w);
      assert counts == old(counts);
    }

    lemma UnheldCount(x: Pid)
      requires Coupled() && info.Has(x)
      ensures x in counts && info.Page(x).locks == counts[x]
      ensures x !in held ==> counts[x] == 0
    {
    }

    /** The upper layer gains a window with the bytes it showed before, under which the
        lower memory may then change if the window is dirty. */
    lemma Held(x: Pid, w: Window, was: seq<byte>)
      requires LayerOk(held, was, mem) && x !in held
      requires Uncovered(held, w.start, |w.data|)
      requires forall j :: 0 <= j < |w.data| && w.start + j < |was| ==> w.data[j] == was[w.start + j]
      requires |base| == |was| && forall a :: 0 <= a < |was| ==> base[a] == was[a] || (w.dirty && w.Covers(a))
      ensures LayerOk(held[x := w], base, mem)
    {
      UncoveredShowsBelow(held, was, mem, w.start, |w.data|);
      Replace(held, was, mem, x, w);
      var held' := held[x := w];
      forall a | 0 <= a < |was|
        ensures base[a] == was[a] || DirtyAt(held', a)
      {
        assert held'[x] == w;
      }
      ChangeBelow(held', was, mem, base);
    }

    /** One more lock on a held page, which becomes dirty unless the lock is read-only. */
    method AddLock(x: Pid, ro: bool)
      requires CacheOk() && LayerOk(held, base, mem) && x in held
      modifies this`info, this`held, this`counts
      ensures CacheOk() && LayerOk(held, base, mem)
      ensures CountedUp(x, old(counts), counts) && MarkedFor(x, ro, old(held), held)
    {
      hide ListsOk, CachedOk, HeldOk, CountsOk, LayerOk, Buffers, RowHas, Slice;
      HeldFact(x);
      var pg := info.Page(x);
      pg := pg.(locks := pg.locks + 1);
      if !pg.dirty {
        pg := pg.(dirty := !ro);
      }
      MarkHeld(x, pg.dirty);
      SetHeld(x, pg, held[x].(dirty := pg.dirty));
    }

    lemma MarkHeld(x: Pid, dirty: bool)
      requires LayerOk(held, base, mem) && x in held && (held[x].dirty ==> dirty)
      ensures LayerOk(held[x := held[x].(dirty := dirty)], base, mem)
    {
      Replace(held, base, mem, x, held[x].(dirty := dirty));
    }

    /** Lets go of what an unlocked page holds, once the lower layer shows the same. */
    ghost method Unhold(x: Pid)
      requires CacheOk() && LayerOk(held, base, mem) && x in held
      requires x in counts && counts[x] == 0
      requires forall a :: 0 <= a < |mem| && held[x].Covers(a) ==> base[a] == mem[a]
      modifies this`held
      ensures CacheOk() && LayerOk(held, base, mem)
      ensures held == old(held) - {x}
    {
      hide ListsOk, CachedOk, HeldOk, CountsOk, LayerOk, Buffers;
      UnholdLayer(x);
      HeldDropped(info, locked, held, counts, store.Length, x);
      held := held - {x};
    }

    lemma UnholdLayer(x: Pid)
      requires LayerOk(held, base, mem) && x in held && Buffers(cached, held)
      requires forall a :: 0 <= a < |mem| && held[x].Covers(a) ==> base[a] == mem[a]
      ensures LayerOk(held - {x}, base, mem) && Buffers(cached, held - {x})
    {
      Drop(held, base, mem, x);
    }

    /** Puts a page that holds nothing any more on the free list. */
    method FreeEmptied(c: nat, index: int, ghost m: nat) returns (ret: int)
      requires CacheOk() && c < 3 && Pid(c, index) !in held && info.Has(Pid(c, index))
      requires m < |locked.Of(c)| && locked.Of(c)[m] == index
      requires c == BIG ==> info.big.pages[index].start == 0 && info.big.pages[index].size == bigPool.Length1
      modifies this`info, this`nextPageToSwap, this`free, this`locked
      ensures CacheOk()
      ensures free == old(free).With(c, [index] + old(free.Of(c)))
      ensures locked == old(locked).With(c, Without(old(locked.Of(c)), m))
      ensures ret == At(old(locked.Of(c)), m + 1)
    {
      hide ListsOk, CachedOk, HeldOk, CountsOk, LayerOk, Buffers, SameButNext, Without;
      LockedIsNotFree(info, free, locked, nextPageToSwap, Pid(c, index));
      ret := LinkFree(c, index, m);
      StateAfterFree(old(info), old(free), old(locked), cached, held, counts, bigPool.Length1, store.Length, c, index, info, locked, cached);
      SameCounts(old(info), info);
    }

    /** Gives a big page that was locked over its full size back to the free list, with
        what it holds. */
    method FreeFull(index: int, ghost m: nat) returns (ret: int)
      requires CacheOk() && LayerOk(held, base, mem) && Pid(BIG, index) in held
      requires Pid(BIG, index) in counts && counts[Pid(BIG, index)] == 0
      requires m < |locked.big| && locked.big[m] == index
      requires |held[Pid(BIG, index)].data| == bigPool.Length1
      modifies this`info, this`nextPageToSwap, this`free, this`locked, this`cached, this`held, this`base
      ensures Coupled() && |base| == store.Length && LayerOk(held, base, mem)
      ensures CacheOk() <==> old(Clearance(Pid(BIG, index)))
      ensures held == old(held) - {Pid(BIG, index)}
      ensures cached == old(cached)[index := old(held)[Pid(BIG, index)]]
      ensures free == old(free).With(BIG, [index] + old(free.Of(BIG)))
      ensures locked == old(locked).With(BIG, Without(old(locked.Of(BIG)), m))
      ensures ret == At(old(locked.Of(BIG)), m + 1)
    {
      hide ListsOk, CachedOk, HeldOk, CountsOk, LayerOk, Buffers, SameButNext, Without, Slice, RowHas, ClearAt;
      ghost var x, w := Pid(BIG, index), held[Pid(BIG, index)];
      HeldFact(x);
      ghost var base' := Put(base, w.start, w.data);
      GiveBack(x, w, base');
      HeldDropped(info, locked, held, counts, store.Length, x);
      ghost var cached' := cached[index := w];
      ret := LinkFree(BIG, index, m);
      StateAfterFree(old(info), old(free), old(locked), cached, held - {x}, counts, bigPool.Length1, store.Length,
                     BIG, index, info, locked, cached');
      SameCounts(old(info), info);
      base, cached, held := base', cached', held - {x};
    }

    /** A full-size page that moves from the upper layer to the lower shows the same bytes
        there, if and only if it overlaps no page that is there already. */
    lemma GiveBack(x: Pid, w: Window, base': seq<byte>)
      requires CacheOk() && LayerOk(held, base, mem)
      requires x in held && w == held[x] && x.c == BIG && x.i !in cached && |w.data| == bigPool.Length1
      requires Stored(base, w.start, w.data, base')
      ensures LayerOk(cached[x.i := w], store[..], base') <==> Clearance(x)
      ensures LayerOk(held - {x}, base', mem) && |base'| == |base|
      ensures Buffers(cached[x.i := w], held - {x})
    {
      hide ListsOk, CachedOk, HeldOk, CountsOk, LayerOk, Buffers;
      WindowFacts();
      if !w.dirty {
        CleanAgrees(x);
      }
      if Clearance(x) {
        forall j | j in cached
          ensures Apart(w, cached[j])
        {
          assert cached[j].start + bigPool.Length1 <= w.start || w.start + bigPool.Length1 <= cached[j].start;
        }
        Attach(cached, store[..], base, x.i, w, base');
      }
      if LayerOk(cached[x.i := w], store[..], base') {
        JoinedApart(cached, x.i, w, store[..], base');
      }
      SaveDown(held, base, mem, x, base');
      SameLengths();
      Drop(held, base', mem, x);
      BuffersGiven(x);
    }

    lemma JoinedApart(ws: map<int, Window>, i: int, w: Window, under: seq<byte>, over: seq<byte>)
      requires i !in ws && LayerOk(ws[i := w], under, over)
      ensures forall j :: j in ws ==> Apart(w, ws[j])
    {
      forall j | j in ws
        ensures Apart(w, ws[j])
      {
        ApartUnlessSame(ws[i := w], i, j);
      }
    }

    lemma SameLengths()
      requires LayerOk(held, base, mem)
      ensures |base| == |mem|
    {
    }

    lemma CleanAgrees(x: Pid)
      requires LayerOk(held, base, mem) && x in held && !held[x].dirty
      ensures Agrees(held[x], base)
    {
      var w := held[x];
      CleanShowsBelow(held, base, mem, x);
      assert Agrees(w, mem);
      forall k | 0 <= k < |w.data| && w.start + k < |base|
        ensures w.data[k] == base[w.start + k]
      {
        assert w.Covers(w.start + k);
      }
    }

    lemma BuffersGiven(x: Pid)
      requires Buffers(cached, held) && x in held && x.c == BIG
      ensures Buffers(cached[x.i := held[x]], held - {x})
    {
    }

    /** Moves an unlocked page to the free list, saving what it holds; returns the page
        after it on the locked list. */
    method FreeLockedPage(c: nat, index: int, ghost m: nat) returns (ret: int)
      requires CacheOk() && LayerOk(held, base, mem) && c < 3 && Pid(c, index) in held
      requires Pid(c, index) in counts && counts[Pid(c, index)] == 0
      requires m < |locked.Of(c)| && locked.Of(c)[m] == index
      modifies this`info, this`nextPageToSwap, this`free, this`locked, this`cached, this`held, this`base, store, bigPool
      ensures Coupled() && |base| == store.Length && LayerOk(held, base, mem)
      ensures CacheOk() <==> old(Clearance(Pid(c, index)))
      ensures held == old(held) - {Pid(c, index)}
      ensures free == old(free).With(c, [index] + old(free.Of(c)))
      ensures locked == old(locked).With(c, Without(old(locked.Of(c)), m))
      ensures ret == At(old(locked.Of(c)), m + 1)
      ensures c == BIG && |old(held)[Pid(c, index)].data| == bigPool.Length1 ==>
        cached == old(cached)[index := old(held)[Pid(c, index)]]
      ensures !(c == BIG && |old(held)[Pid(c, index)].data| == bigPool.Length1) ==> NoNewWindows(old(cached), cached)
    {
      hide ListsOk, CachedOk, HeldOk, CountsOk, LayerOk, Buffers, Without, Slice, RowHas, ClearAt;
      var x := Pid(c, index);
      HeldFact(x);
      if c != BIG || info.Page(x).size < PageSize(BIG) {
        ClearUnlessFull(x);
      }
      if c != BIG {
        SyncLockedPage(x);
        Unhold(x);
        HasStays(x);
        ret := FreeEmptied(c, index, m);
      } else if info.Page(x).size < PageSize(BIG) {
        SyncLockedPage(x);
        HeldFact(x);
        Unhold(x);
        SetRecord(x, info.Page(x).(start := 0, size := PageSize(BIG)));
        ret := FreeEmptied(c, index, m);
      } else {
        ret := FreeFull(index, m);
      }
    }

    lemma ClearUnlessFull(x: Pid)
      requires x in held && (x.c != BIG || |held[x].data| != bigPool.Length1)
      ensures Clearance(x)
    {
    }

    lemma HasStays(x: Pid)
      requires Counted() && IsPage(x)
      ensures info.Has(x)
    {
    }

    // --- the allocator as a whole ---

    ghost predicate Valid()
      reads this, store, smallPool, mediumPool, bigPool
    {
      && CacheOk() && LayerOk(held, base, mem)
      && AllHeld(locked, held) && BigActive(held, counts)
    }

    /** What a walk along a locked list meets at position `n`. */
    lemma LockWalk(c: nat, n: nat)
      requires Valid() && c < 3
      ensures |base| == |mem| == store.Length == poolSize
      ensures info.Of(c).lockedIndex == At(locked.Of(c), 0)
      ensures n < |locked.Of(c)| ==>
                var i := locked.Of(c)[n];
                && 0 <= i < |info.Of(c).pages| && info.Of(c).pages[i] == info.Page(Pid(c, i))
                && HeldFacts(Pid(c, i)) && info.Of(c).pages[i].next == At(locked.Of(c), n + 1)
                && (c == BIG ==> counts[Pid(c, i)] > 0)
    {
      hide CacheOk;
      LockWalk0(c, n);
    }

    lemma LockWalk0(c: nat, n: nat)
      requires CacheOk() && LayerOk(held, base, mem) && AllHeld(locked, held) && c < 3
      ensures |base| == |mem| == store.Length == poolSize
      ensures info.Of(c).lockedIndex == At(locked.Of(c), 0)
      ensures n < |locked.Of(c)| ==>
                var i := locked.Of(c)[n];
                && 0 <= i < |info.Of(c).pages| && info.Of(c).pages[i] == info.Page(Pid(c, i))
                && HeldFacts(Pid(c, i)) && info.Of(c).pages[i].next == At(locked.Of(c), n + 1)
    {
      hide CachedOk, HeldOk, CountsOk, Buffers;
      LockedStep(info, free, locked, nextPageToSwap, c, n);
      if n < |locked.Of(c)| {
        assert locked.Of(c)[n] in locked.Of(c);
        HeldFact(Pid(c, locked.Of(c)[n]));
      }
    }

    /** A held page is met by a walk along its locked list. */
    lemma HeldIsListed(x: Pid)
      requires Valid() && x in held
      ensures HeldFacts(x) && exists n :: 0 <= n < |locked.Of(x.c)| && locked.Of(x.c)[n] == x.i
    {
      HeldFact(x);
    }

    /** Moves an unused page that is still held to the free list. */
    method FreeUnused(c: nat, index: int, ghost m: nat) returns (ret: int)
      requires Valid() && c < 3 && HeldFacts(Pid(c, index))
      requires counts[Pid(c, index)] == 0
      requires m < |locked.Of(c)| && locked.Of(c)[m] == index
      modifies this`info, this`nextPageToSwap, this`free, this`locked, this`cached, this`held, this`base, store, bigPool
      ensures Valid()
      ensures held == old(held) - {Pid(c, index)}
      ensures FreeStay(old(free), free)
      ensures |locked.Of(c)| == |old(locked.Of(c))| - 1 && forall j :: 0 <= j < m ==> locked.Of(c)[j] == old(locked.Of(c))[j]
      ensures ret == At(locked.Of(c), m)
      ensures NoNewWindows(old(cached), cached)
    {
      hide CacheOk, Coupled, ClearAt, LayerOk, AllHeld, HeldFacts, Without;
      UnusedIsSmall(Pid(c, index));
      AllHeldFreed(c, m);
      WithoutAt(locked.Of(c), m);
      ClearUnlessFull(Pid(c, index));
      ret := FreeLockedPage(c, index, m);
    }

    lemma UnusedIsSmall(x: Pid)
      requires BigActive(held, counts) && HeldFacts(x) && counts[x] == 0
      ensures x.c != BIG && x in held && x in counts
    {
    }

    lemma AllHeldFreed(c: nat, m: nat)
      requires CacheOk() && AllHeld(locked, held) && c < 3 && m < |locked.Of(c)|
      ensures AllHeld(locked.With(c, Without(locked.Of(c), m)), held - {Pid(c, locked.Of(c)[m])})
    {
      AllHeldAfterFree(info, free, locked, nextPageToSwap, held, c, m);
    }

    /** Looks through one locked list for a page that holds `ptr`.  On the way, lets go of
        unused pages that overlap [ptr, ptr + size), and cuts `size` short at used ones. */
    method ScanClass(c: nat, ptr: nat, size0: nat) returns (index: int, size: nat, unused: int)
      requires Valid() && c < 3 && 1 <= size0
      modifies this`info, this`nextPageToSwap, this`free, this`locked, this`cached, this`held, this`base, store, bigPool
      ensures Valid()
      ensures 1 <= size <= size0 && CutAtLock(ptr, size, size0, held, counts)
      ensures OnlyUnusedLost(old(held), held, counts) && LostInside(old(held), held, ptr, size0)
      ensures forall x :: x in old(held) && x.c != c ==> x in held
      ensures NoNewWindows(old(cached), cached)
      ensures index != -1 ==> Pid(c, index) in held && held[Pid(c, index)].Covers(ptr)
      ensures index == -1 ==> ClassMissed(held, c, ptr, size) && UnusedKnown(held, counts, c, unused)
    {
      hide Valid, HeldFacts, NoNewWindows, CutAtLock, ScannedIn, UnusedIn, OnlyUnusedLost, LostInside;
      NoneNewSelf(cached);
      LostInsideSelf(held, ptr, size0);
      NothingLost(held, counts);
      NotCut(ptr, size0);
      ScanBegins(locked.Of(c), held, counts, c, ptr, size0);
      size, unused := size0, -1;
      ghost var n: nat := 0;
      LockWalk(c, 0);
      index := info.Of(c).lockedIndex;
      while index != -1
        invariant Valid()
        invariant n <= |locked.Of(c)| && index == At(locked.Of(c), n)
        invariant 1 <= size <= size0 && CutAtLock(ptr, size, size0, held, counts)
        invariant OnlyUnusedLost(old(held), held, counts) && LostInside(old(held), held, ptr, size0)
        invariant forall x :: x in old(held) && x.c != c ==> x in held
        invariant NoNewWindows(old(cached), cached)
        invariant ScannedIn(locked.Of(c), held, c, n, ptr, size) && UnusedIn(locked.Of(c), counts, c, n, unused)
        decreases |locked.Of(c)| - n
      {
        LockWalk(c, n);
        LockedHas(c, n);
        var pg := info.Of(c).pages[index];
        PageIs(Pid(c, index), pg);
        if ptr >= pg.start && ptr < pg.start + pg.size {
          UnusedHeld(c, n, unused);
          return;
        }
        if ptr < pg.start && ptr + size > pg.start && pg.locks == 0 {
          ghost var windows, mid, lst := cached, held, locked.Of(c);
          ListedOnce(c, n);
          index := FreeUnused(c, index, n);
          NoneNew(old(cached), windows, cached);
          CutStill(ptr, size, size0, mid, held, counts, counts);
          ScanFreed(lst, mid, counts, locked.Of(c), held, c, n, ptr, size, unused);
          LostInsideOne(old(held), mid, held, Pid(c, lst[n]), ptr, size0, counts);
          OneLost(old(held), mid, held, counts);
        } else {
          ghost var was, seen := size, unused;
          if ptr < pg.start && ptr + size > pg.start {
            size := pg.start - ptr;
            CutHere(Pid(c, index), ptr, size, size0);
          }
          if pg.locks == 0 && unused == -1 {
            unused := index;
          }
          ScanNext(locked.Of(c), held, counts, c, n, ptr, was, size, seen, unused);
          index := pg.next;
          n := n + 1;
        }
      }
      LockWalk(c, n);
      LockedHas(c, n);
      ScanEnds(c, n, ptr, size, unused);
    }

    lemma PageIs(x: Pid, pg: LockPage)
      requires HeldFacts(x) && pg == info.Page(x)
      ensures x in held && held[x].start == pg.start && |held[x].data| == pg.size && x in counts && counts[x] == pg.locks
    {
    }

    /** At the end every page of the class has been met. */
    lemma ScanEnds(c: nat, n: nat, ptr: nat, size: nat, unused: int)
      requires Valid() && c < 3 && n == |locked.Of(c)|
      requires ScannedIn(locked.Of(c), held, c, n, ptr, size) && UnusedIn(locked.Of(c), counts, c, n, unused)
      ensures ClassMissed(held, c, ptr, size) && UnusedKnown(held, counts, c, unused)
    {
      hide Valid, Misses;
      UnusedHeld(c, n, unused);
      Listed(c);
    }

    lemma UnusedHeld(c: nat, n: nat, unused: int)
      requires Valid() && c < 3 && n <= |locked.Of(c)| && UnusedIn(locked.Of(c), counts, c, n, unused)
      ensures unused != -1 ==> Pid(c, unused) in held && Pid(c, unused) in counts && counts[Pid(c, unused)] == 0
    {
      hide Valid;
      LockedPageFacts(c, unused);
    }

    lemma NotCut(ptr: nat, size: nat)
      ensures CutAtLock(ptr, size, size, held, counts)
    {
    }

    lemma CutHere(x: Pid, ptr: nat, size: nat, asked: nat)
      requires HeldFacts(x) && info.Page(x).locks > 0 && info.Page(x).start == ptr + size
      ensures CutAtLock(ptr, size, asked, held, counts)
    {
    }

    lemma LockedHas(c: nat, n: nat)
      requires Valid() && c < 3
      ensures n < |locked.Of(c)| ==>
              var x := Pid(c, locked.Of(c)[n]);
              && x in held && x in counts && HeldFacts(x) && counts[x] == info.Page(x).locks && locked.Of(c)[n] >= 0
              && held[x].start == info.Page(x).start && |held[x].data| == info.Page(x).size
    {
      hide CacheOk;
      LockWalk(c, n);
    }

    lemma LockedPageFacts(c: nat, i: int)
      requires Valid() && c < 3
      ensures i in locked.Of(c) ==> HeldFacts(Pid(c, i))
    {
      if i in locked.Of(c) {
        HeldFact(Pid(c, i));
      }
    }

    lemma Listed(c: nat)
      requires Valid() && c < 3
      ensures forall x :: x in held && x.c == c ==> exists m :: 0 <= m < |locked.Of(c)| && locked.Of(c)[m] == x.i
    {
      forall x | x in held && x.c == c
        ensures exists m :: 0 <= m < |locked.Of(c)| && locked.Of(c)[m] == x.i
      {
        HeldIsListed(x);
      }
    }

    /** Lets go of what an unused page holds, so that the page can be used for something else. */
    method Reclaim(x: Pid)
      requires Valid() && x in held && x in counts && counts[x] == 0
      modifies this`info, this`cached, this`held, this`base, store, bigPool
      ensures CacheOk() && LayerOk(held, base, mem)
      ensures held == old(held) - {x}
      ensures IsPage(x) && info.Has(x) && x.i in locked.Of(x.c) && !info.Page(x).dirty && x.c != BIG
      ensures NoNewWindows(old(cached), cached)
    {
      hide CacheOk, LayerOk, AllHeld, BigActive;
      HeldNow(x);
      UnusedIsSmall(x);
      SyncLockedPage(x);
      Unhold(x);
      CleanRecord(x);
    }

    lemma HeldNow(x: Pid)
      requires CacheOk() && x in held
      ensures HeldFacts(x)
    {
      HeldFact(x);
    }

    method CleanRecord(x: Pid)
      requires CacheOk() && IsPage(x) && x !in held && x.i in locked.Of(x.c)
      modifies this`info
      ensures CacheOk() && info.Has(x) && !info.Page(x).dirty
    {
      hide ListsOk, CachedOk, HeldOk, CountsOk, LayerOk, Buffers;
      HasStays(x);
      SetRecord(x, info.Page(x).(dirty := false));
    }

    lemma FirstOfFree(c: nat)
      requires Valid() && c < 3
      ensures info.Of(c).freeIndex == -1 <==> free.Of(c) == []
    {
      assert Partition(info.Of(c), free.Of(c), locked.Of(c));
      WalkStarts(info.Of(c).pages, info.Of(c).freeIndex, free.Of(c));
      if free.Of(c) != [] {
        assert free.Of(c)[0] in free.Of(c);
      }
    }

    lemma ClassTaken(c: nat)
      requires Valid() && c < 3 && free.Of(c) == []
      requires forall x :: x in held && x.c == c ==> x in counts && counts[x] > 0
      ensures forall x :: IsPage(x) && x.c == c ==> x in counts && counts[x] > 0
    {
      hide CachedOk, HeldOk, CountsOk, Buffers, LayerOk;
      assert Partition(info.Of(c), free.Of(c), locked.Of(c));
      forall x | IsPage(x) && x.c == c
        ensures x in held
      {
        assert x.i in locked.Of(c);
      }
    }

    lemma PageSizes()
      requires CacheOk()
      ensures forall c :: 0 <= c < 3 ==> 16 <= PageSize(c) <= bigPool.Length1
      ensures |base| == store.Length
    {
    }

    /** Makes a free page of class `c` hold [ptr, ptr + size). */
    method OpenFree(c: nat, ptr: nat, size: nat) returns (x: Pid)
      requires Valid() && c < 3 && 1 <= ptr && 1 <= size <= PageSize(c) && ptr + size <= store.Length
      requires Uncovered(held, ptr, size)
      requires info.Of(c).freeIndex != -1
      modifies this`info, this`nextPageToSwap, this`free, this`locked, this`cached, this`held, this`counts, this`base
      modifies store, smallPool, mediumPool, bigPool
      ensures CacheOk() && LayerOk(held, base, mem) && AllHeld(locked, held)
      ensures counts == old(counts)
      ensures NoNewWindows(old(cached), cached)
      ensures x.c == c && IsPage(x) && x in held && held[x].start == ptr && |held[x].data| == size
      ensures x in counts && counts[x] == 0
      ensures OnlyUnusedLost(old(held), held - {x}, counts)
      ensures x.c == BIG ==> forall j :: j in cached ==> Far(cached[j].start, ptr)
    {
      hide CacheOk, LayerOk, AllHeld, BigActive, HeldFacts;
      FirstOfFree(c);
      ghost var was := base;
      var index := LockPage(c, ptr, size);
      x := Pid(c, index);
      PageSizes();
      if c != BIG {
        CopyRawData(x, 0, ptr, size);
      }
      PageSizes();
      Hold(x, ptr, size, was);
      AllHeldAfterLock(old(locked), old(held), x, held[x]);
    }

    /** Makes an unused page that still holds something else hold [ptr, ptr + size). */
    method OpenUnused(c: nat, ptr: nat, size: nat, unused: int) returns (x: Pid)
      requires Valid() && c < 3 && 1 <= ptr && 1 <= size <= PageSize(c) && ptr + size <= store.Length
      requires Uncovered(held, ptr, size)
      requires Unused(Pid(c, unused), held, counts)
      modifies this`info, this`nextPageToSwap, this`free, this`locked, this`cached, this`held, this`counts, this`base
      modifies store, smallPool, mediumPool, bigPool
      ensures CacheOk() && LayerOk(held, base, mem) && AllHeld(locked, held)
      ensures counts == old(counts)
      ensures NoNewWindows(old(cached), cached)
      ensures x.c == c && IsPage(x) && x in held && held[x].start == ptr && |held[x].data| == size
      ensures x in counts && counts[x] == 0
      ensures OnlyUnusedLost(old(held), held - {x}, counts)
      ensures x.c == BIG ==> forall j :: j in cached ==> Far(cached[j].start, ptr)
    {
      hide CacheOk, LayerOk, AllHeld, BigActive, HeldFacts;
      x := Pid(c, unused);
      Reclaim(x);
      PageSizes();
      CopyRawData(x, 0, ptr, size);
      PageSizes();
      Hold(x, ptr, size, base);
      AllHeldReused(old(locked), old(held), x, held[x]);
    }

    /** Readies a page for a new lock at `ptr`, where no page is held: a free one if its
        class has any, else an unused one.  The class is the largest available one that
        `size` fits, or the largest available at all, in which case `size` is cut short. */
    method MakeFresh(ptr: nat, size0: nat, unused: seq<int>) returns (ok: bool, x: Pid, size: nat)
      requires Valid() && 1 <= ptr && 1 <= size0 <= bigPool.Length1 && ptr + size0 <= store.Length
      requires Uncovered(held, ptr, size0)
      requires |unused| == 3
      requires forall c :: 0 <= c < 3 ==> UnusedKnown(held, counts, c, unused[c])
      modifies this`info, this`nextPageToSwap, this`free, this`locked, this`cached, this`held, this`counts, this`base
      modifies store, smallPool, mediumPool, bigPool
      ensures CacheOk() && LayerOk(held, base, mem) && AllHeld(locked, held)
      ensures counts == old(counts)
      ensures NoNewWindows(old(cached), cached)
      ensures ok ==> 1 <= size <= size0 && x in held && held[x].start == ptr && |held[x].data| == size
      ensures ok ==> IsPage(x) && x in counts && counts[x] == 0
      ensures ok ==> OnlyUnusedLost(old(held), held - {x}, counts)
      ensures ok && x.c == BIG ==> forall j :: j in cached ==> Far(cached[j].start, ptr)
      ensures ok && size < size0 ==> size == PageSize(x.c) && LargerTaken(size)
      ensures ok ==> LastLeft(x.c, counts)
      ensures !ok ==> held == old(held) && LargerTaken(0)
    {
      hide CacheOk, LayerOk, AllHeld, BigActive, HeldFacts, LargerIn, LastLeft;
      PageSizes();
      PageOrder();
      size := size0;
      var plistindex, secpli, i := -1, -1, 0;
      while i < 3
        invariant 0 <= i <= 3
        invariant -1 <= plistindex < i && -1 <= secpli < i
        invariant plistindex != -1 ==> size <= PageSize(plistindex)
        invariant plistindex != -1 ==> info.Of(plistindex).freeIndex != -1 || unused[plistindex] != -1
        invariant secpli != -1 ==> size > PageSize(secpli)
        invariant secpli != -1 ==> info.Of(secpli).freeIndex != -1 || unused[secpli] != -1
        invariant forall c :: (if plistindex == -1 then secpli else plistindex) < c < i ==> info.Of(c).freeIndex == -1 && unused[c] == -1
      {
        if info.Of(i).freeIndex != -1 || unused[i] != -1 {
          if size <= PageSize(i) {
            plistindex := i;
          } else {
            secpli := i;
          }
        }
        i := i + 1;
      }
      NoneLarger(if plistindex == -1 then secpli else plistindex, unused);
      if plistindex == -1 && secpli != -1 {
        plistindex := secpli;
        size := PageSize(plistindex);
      }
      if plistindex == -1 {
        ok, x := false, Pid(0, 0);
        return;
      }
      ok := true;
      if info.Of(plistindex).freeIndex != -1 {
        x := OpenFree(plistindex, ptr, size);
      } else {
        x := OpenUnused(plistindex, ptr, size, unused[plistindex]);
      }
    }

    /** All pages with more than `n` bytes are locked. */
    ghost predicate LargerTaken(n: nat)
      reads this`counts
    {
      LargerIn(n, counts)
    }

    ghost predicate LargerIn(n: nat, k: map<Pid, nat>) {
      forall y :: IsPage(y) && PageSize(y.c) > n ==> y in k && k[y] > 0
    }

    /** All pages of the classes beyond `c` are locked. */
    ghost predicate LastLeft(c: int, k: map<Pid, nat>) {
      forall y :: IsPage(y) && y.c > c ==> y in k && k[y] > 0
    }

    /** The page to lock is the one that holds `ptr` already, or, as there is none, one of the
        largest class that has pages left. */
    ghost predicate ChosenFor(x: Pid, ptr: nat, h: map<Pid, Window>, k: map<Pid, nat>) {
      (x in h && h[x].Covers(ptr)) || (LastLeft(x.c, k) && forall y :: y in h ==> !h[y].Covers(ptr))
    }

    lemma ChosenBefore(x: Pid, ptr: nat, size: nat, h: map<Pid, Window>, mid: map<Pid, Window>, k: map<Pid, nat>)
      requires ChosenFor(x, ptr, mid, k) && OnlyUnusedLost(h, mid, k) && LostInside(h, mid, ptr, size)
      ensures ChosenFor(x, ptr, h, k)
    {
    }

    lemma NoneLarger(last: int, unused: seq<int>)
      requires Valid() && -1 <= last < 3 && |unused| == 3
      requires forall c :: last < c < 3 ==> info.Of(c).freeIndex == -1 && unused[c] == -1
      requires forall c :: 0 <= c < 3 ==> UnusedKnown(held, counts, c, unused[c])
      ensures LargerTaken(if last == -1 then 0 else PageSize(last)) && LastLeft(last, counts)
    {
      hide CacheOk, LayerOk, AllHeld, BigActive;
      forall y | IsPage(y) && last < y.c
        ensures y in counts && counts[y] > 0
      {
        FirstOfFree(y.c);
        ClassTaken(y.c);
      }
      PageOrder();
    }

    lemma PageOrder()
      requires CacheOk()
      ensures PageSize(SMALL) <= PageSize(MEDIUM) <= PageSize(BIG)
    {
    }

    /** Counts one more lock on a page, which a page just readied needs to become valid. */
    method Lock(x: Pid, ro: bool, ghost before: map<Pid, Window>)
      requires CacheOk() && LayerOk(held, base, mem) && AllHeld(locked, held) && x in held
      requires BigActive(before, counts) && forall y :: y in held && y != x ==> y in before
      modifies this`info, this`held, this`counts
      ensures Valid()
      ensures x in old(counts) && counts == old(counts)[x := old(counts)[x] + 1]
      ensures held == old(held)[x := held[x]] && x in held
      ensures held[x] == old(held)[x].(dirty := old(held)[x].dirty || !ro)
    {
      hide CacheOk, LayerOk, AllHeld;
      AddLock(x, ro);
      AllHeldSet(locked, old(held), x, held[x]);
      forall y | y in held && y.c == BIG
        ensures y in counts && counts[y] > 0
      {
        assert y != x ==> y in before;
      }
    }

    /** The buffer of a held page shows the memory. */
    lemma LockShows(x: Pid, offset: nat, size: nat)
      requires Valid() && x in held && offset + size <= |held[x].data|
      ensures IsPage(x) && offset + size <= PageSize(x.c) && held[x].start + offset + size <= |mem|
      ensures Slice(Pool(x.c), x.i, offset, size) == mem[held[x].start + offset..held[x].start + offset + size]
    {
      hide Valid, CacheOk, LayerOk, RowHas, HeldFacts;
      Parts();
      HeldRow(x);
      var w, s := held[x], Slice(Pool(x.c), x.i, offset, size);
      forall j | 0 <= j < size
        ensures s[j] == mem[w.start + offset + j]
      {
        assert Pool(x.c)[x.i, offset + j] == mem[w.start + (offset + j)];
      }
    }

    lemma HeldRow(x: Pid)
      requires Valid() && x in held
      ensures IsPage(x) && |held[x].data| <= PageSize(x.c) && held[x].start + |held[x].data| <= |mem|
      ensures forall j :: 0 <= j < |held[x].data| ==> Pool(x.c)[x.i, j] == mem[held[x].start + j]
    {
      hide ListsOk, CachedOk, CountsOk;
      assert RowHas(Pool(x.c), x.i, held[x].data);
      assert Agrees(held[x], mem);
    }

    lemma Parts()
      requires Valid()
      ensures CacheOk() && LayerOk(held, base, mem) && AllHeld(locked, held) && BigActive(held, counts)
      ensures forall x :: x in held ==> x.c < 3
      ensures forall c :: 0 <= c < 3 ==> 16 <= PageSize(c) <= bigPool.Length1
      ensures |mem| == |base| == store.Length
    {
    }

    /** Scans all three locked lists for a page that holds `ptr`, smallest class first. */
    method ScanAll(ptr: nat, size0: nat) returns (plistindex: int, pageindex: int, size: nat, unused: seq<int>)
      requires Valid() && 1 <= size0
      modifies this`info, this`nextPageToSwap, this`free, this`locked, this`cached, this`held, this`base, store, bigPool
      ensures Valid()
      ensures 1 <= size <= size0 && |unused| == 3 && CutAtLock(ptr, size, size0, held, counts)
      ensures OnlyUnusedLost(old(held), held, counts) && LostInside(old(held), held, ptr, size0)
      ensures NoNewWindows(old(cached), cached)
      ensures pageindex != -1 ==> plistindex >= 0 && Pid(plistindex, pageindex) in held && held[Pid(plistindex, pageindex)].Covers(ptr)
      ensures pageindex == -1 ==> Uncovered(held, ptr, size)
      ensures pageindex == -1 ==> forall c :: 0 <= c < 3 ==> UnusedKnown(held, counts, c, unused[c])
    {
      hide Valid, HeldFacts, CutAtLock, OnlyUnusedLost, LostInside, NoNewWindows, UnusedKnown, ClassMissed;
      LostInsideSelf(held, ptr, size0);
      NotCut(ptr, size0);
      NothingLost(held, counts);
      NoneNewSelf(cached);
      size, unused := size0, [-1, -1, -1];
      plistindex, pageindex := -1, -1;
      var pindex := 0;
      while pindex < 3 && pageindex == -1
        invariant 0 <= pindex <= 3 && |unused| == 3
        invariant Valid()
        invariant 1 <= size <= size0 && CutAtLock(ptr, size, size0, held, counts)
        invariant OnlyUnusedLost(old(held), held, counts) && LostInside(old(held), held, ptr, size0)
        invariant NoNewWindows(old(cached), cached)
        invariant pageindex != -1 ==> plistindex >= 0 && Pid(plistindex, pageindex) in held && held[Pid(plistindex, pageindex)].Covers(ptr)
        invariant pageindex == -1 ==>
          forall c :: 0 <= c < pindex ==> ClassMissed(held, c, ptr, size) && UnusedKnown(held, counts, c, unused[c])
      {
        var u;
        ghost var mid, windows, was := held, cached, size;
        pageindex, size, u := ScanClass(pindex, ptr, size);
        CutStill(ptr, was, size0, mid, held, counts, counts);
        CutFurther(ptr, size, was, size0);
        LostIsSame(mid, held, counts);
        forall c | 0 <= c < pindex
          ensures ClassMissed(held, c, ptr, size) && UnusedKnown(held, counts, c, unused[c])
        {
          ClassStill(mid, held, counts, c, unused[c], ptr, was, size);
        }
        LostInsideThrough(old(held), mid, held, ptr, size0, was, counts);
        LostThrough(old(held), mid, held, counts);
        NoneNew(old(cached), windows, cached);
        plistindex := pindex;
        unused := unused[pindex := u];
        pindex := pindex + 1;
      }
      Parts();
      if pageindex == -1 {
        AllMissed(held, ptr, size);
      }
    }

    lemma CutFurther(ptr: nat, size: nat, mid: nat, asked: nat)
      requires CutAtLock(ptr, size, mid, held, counts) && CutAtLock(ptr, mid, asked, held, counts)
      ensures CutAtLock(ptr, size, asked, held, counts)
    {
    }

    /** A lock on a page readied for it. */
    method LockFresh(ptr: nat, size0: nat, unused: seq<int>, ro: bool) returns (ok: bool, x: Pid, size: nat)
      requires Valid() && 1 <= ptr && 1 <= size0 <= bigPool.Length1 && ptr + size0 <= store.Length
      requires Uncovered(held, ptr, size0)
      requires |unused| == 3
      requires forall c :: 0 <= c < 3 ==> UnusedKnown(held, counts, c, unused[c])
      modifies this`info, this`nextPageToSwap, this`free, this`locked, this`cached, this`held, this`counts, this`base
      modifies store, smallPool, mediumPool, bigPool
      ensures Valid()
      ensures ok ==> x in held && held[x].start == ptr && |held[x].data| == size && 1 <= size <= size0 && (!ro ==> held[x].dirty)
      ensures ok ==> x in old(counts) && counts == old(counts)[x := old(counts)[x] + 1]
      ensures ok && x.c == BIG ==> forall j :: j in cached ==> Far(cached[j].start, ptr)
      ensures ok && size < size0 ==> size == PageSize(x.c) && old(LargerTaken(size))
      ensures ok ==> LastLeft(x.c, old(counts))
      ensures !ok ==> counts == old(counts) && LargerTaken(0)
      ensures LocksStay(old(held), held, old(counts)) && HeldFrom(old(held), held, if ok then {x} else {})
      ensures NoNewWindows(old(cached), cached)
    {
      hide Valid, HeldFacts, CacheOk, LayerOk, AllHeld, Uncovered, NoNewWindows, LargerIn, LastLeft;
      Parts();
      ghost var before := held;
      ok, x, size := MakeFresh(ptr, size0, unused);
      if ok {
        Lock(x, ro, before);
      } else {
        Whole();
      }
    }

    lemma Whole()
      requires CacheOk() && LayerOk(held, base, mem) && AllHeld(locked, held) && BigActive(held, counts)
      ensures Valid()
    {
    }

    /** One more lock on a page that holds `ptr`. */
    method LockAgain(x: Pid, ptr: nat, size0: nat, ro: bool) returns (offset: nat, size: nat)
      requires Valid() && x in held && held[x].Covers(ptr) && 1 <= size0
      modifies this`info, this`held, this`counts
      ensures Valid() && x in held && held[x].start + offset == ptr && 1 <= size <= size0 && offset + size <= |held[x].data|
      ensures size == size0 || old(held)[x].start + |old(held)[x].data| == ptr + size
      ensures x in old(counts) && (!ro ==> held[x].dirty) && counts == old(counts)[x := old(counts)[x] + 1] && (old(counts)[x] == 0 ==> x.c != BIG)
      ensures LocksStay(old(held), held, old(counts)) && HeldFrom(old(held), held, {x}) && MarkedIf(x, ptr, ro, old(held), held)
    {
      hide Valid, HeldFacts, CacheOk, LayerOk, AllHeld, LocksStay, HeldFrom;
      ghost var mid := held;
      Parts();
      StartOf(x);
      offset := ptr - info.Page(x).start;
      size := Min(size0, info.Page(x).size - offset);
      Lock(x, ro, held);
      LockStays(mid, x);
      OneHeld(mid, x);
    }

    /** Why a lock of page `x` was given this size, if not all that was asked for: another lock
        starts where it stops, a page already held stops there, or no larger page is to be had. */
    ghost predicate Fitting(x: Pid, ptr: nat, size: nat, asked: nat, h: map<Pid, Window>, k: map<Pid, nat>) {
      || CutAtLock(ptr, size, asked, h, k)
      || (x in h && h[x].Covers(ptr) && h[x].start + |h[x].data| == ptr + size)
      || (size == PageSize(x.c) && LargerIn(size, k))
    }

    /** Which page a fitting lock is put on, how much of it, and whether that makes it dirty. */
    ghost predicate FittingLock(x: Pid, ptr: nat, size: nat, want: nat, ro: bool, s: LockState, s': LockState) {
      && Fitting(x, ptr, size, Min(want, bigPool.Length1), s.held, s.counts)
      && ChosenFor(x, ptr, s.held, s.counts) && MarkedIf(x, ptr, ro, s.held, s'.held)
    }

    lemma NoneLeft()
      requires LargerTaken(0) && Valid()
      ensures forall y :: IsPage(y) ==> y in counts && counts[y] > 0
    {
      hide CacheOk, LayerOk;
      PageSizes();
    }

    /** Why that size is less than the scan left. */
    ghost predicate TakenAs(x: Pid, ptr: nat, size: nat, cut: nat, h: map<Pid, Window>, k: map<Pid, nat>) {
      || size == cut
      || (x in h && h[x].Covers(ptr) && h[x].start + |h[x].data| == ptr + size)
      || (size == PageSize(x.c) && LargerIn(size, k))
    }

    lemma FittingIs(x: Pid, ptr: nat, size: nat, cut: nat, asked: nat, h: map<Pid, Window>, mid: map<Pid, Window>, k: map<Pid, nat>)
      requires CutAtLock(ptr, cut, asked, mid, k) && OnlyUnusedLost(h, mid, k) && TakenAs(x, ptr, size, cut, mid, k)
      ensures Fitting(x, ptr, size, asked, h, k)
    {
    }

    lemma NoneAt(h: map<Pid, Window>, ptr: nat, size: nat)
      requires Uncovered(h, ptr, size) && size >= 1
      ensures forall y :: y in h ==> !h[y].Covers(ptr)
    {
    }

    /** Takes the page a scan found, or else one readied for the purpose. */
    method TakeScanned(ptr: nat, cut: nat, plistindex: int, pageindex: int, unused: seq<int>, ro: bool)
      returns (ok: bool, x: Pid, offset: nat, size: nat)
      requires Valid() && 1 <= ptr && 1 <= cut <= bigPool.Length1 && ptr + cut <= store.Length && |unused| == 3
      requires pageindex != -1 ==> plistindex >= 0 && Pid(plistindex, pageindex) in held && held[Pid(plistindex, pageindex)].Covers(ptr)
      requires pageindex == -1 ==> Uncovered(held, ptr, cut) && forall c :: 0 <= c < 3 ==> UnusedKnown(held, counts, c, unused[c])
      modifies this`info, this`nextPageToSwap, this`free, this`locked, this`cached, this`held, this`counts, this`base
      modifies store, smallPool, mediumPool, bigPool
      ensures Valid()
      ensures ok ==> x in held && held[x].start + offset == ptr && offset + size <= |held[x].data|
      ensures ok ==> 1 <= size <= cut && (!ro ==> held[x].dirty) && TakenAs(x, ptr, size, cut, old(held), old(counts))
      ensures ok ==> ChosenFor(x, ptr, old(held), old(counts)) && MarkedIf(x, ptr, ro, old(held), held)
      ensures ok ==> x in old(counts) && counts == old(counts)[x := old(counts)[x] + 1]
      ensures ok && old(counts)[x] == 0 && x.c == BIG ==>
                offset == 0 && |held[x].data| == size && forall j :: j in cached ==> Far(cached[j].start, ptr)
      ensures !ok ==> counts == old(counts) && forall y :: IsPage(y) ==> y in counts && counts[y] > 0
      ensures LocksStay(old(held), held, old(counts)) && HeldFrom(old(held), held, if ok then {x} else {})
      ensures NoNewWindows(old(cached), cached)
    {
      hide Valid, CacheOk, LayerOk, Uncovered, UnusedKnown, LocksStay, LargerIn, LastLeft, HeldFrom, NoNewWindows;
      offset := 0;
      if pageindex == -1 {
        NoneAt(held, ptr, cut);
        ok, x, size := LockFresh(ptr, cut, unused, ro);
        if !ok {
          NoneLeft();
        }
      } else {
        ok, x := true, Pid(plistindex, pageindex);
        NoneNewSelf(cached);
        offset, size := LockAgain(x, ptr, cut, ro);
      }
    }

    /** Locks as much of [ptr, ptr + want) as one page can hold without moving any lock
        there is.  Fails only when every page is locked. */
    method MakeFittingLock(ptr: nat, want: nat, ro: bool) returns (ok: bool, x: Pid, offset: nat, size: nat)
      requires Valid() && 1 <= ptr && 1 <= want && ptr + Min(want, bigPool.Length1) <= store.Length
      requires forall y :: y in held && held[y].Covers(ptr) ==> y in counts && counts[y] < 255
      modifies this`info, this`nextPageToSwap, this`free, this`locked, this`cached, this`held, this`counts, this`base
      modifies store, smallPool, mediumPool, bigPool
      ensures Valid()
      ensures ok ==> IsPage(x) && x in held && held[x].start + offset == ptr && offset + size <= |held[x].data|
      ensures ok ==> 1 <= size <= want && size <= bigPool.Length1 && (!ro ==> held[x].dirty)
      ensures ok ==> offset + size <= PageSize(x.c) && ptr + size <= |mem| && Slice(Pool(x.c), x.i, offset, size) == mem[ptr..ptr + size]
      ensures ok ==> x in old(counts) && counts == old(counts)[x := old(counts)[x] + 1]
      ensures ok && old(counts)[x] == 0 && x.c == BIG ==>
                offset == 0 && |held[x].data| == size && forall j :: j in cached ==> Far(cached[j].start, ptr)
      ensures ok ==> FittingLock(x, ptr, size, want, ro, old(State()), State())
      ensures !ok ==> counts == old(counts) && forall y :: IsPage(y) ==> y in counts && counts[y] > 0
      ensures LocksStay(old(held), held, old(counts)) && HeldFrom(old(held), held, if ok then {x} else {})
      ensures NoNewWindows(old(cached), cached)
    {
      hide Valid, Slice, CacheOk, LayerOk, AllHeld, Uncovered, UnusedKnown, NoNewWindows, LocksStay, OnlyUnusedLost, LostInside, CutAtLock, TakenAs, FittingLock, HeldFrom, ChosenFor, MarkedIf, Far, BigActive, LastLeft;
      Parts();
      BigSize();
      var asked := Min(want, bigPool.Length1);
      var plistindex, pageindex, cut, unused := ScanAll(ptr, asked);
      Parts();
      ghost var mid, windows := held, cached;
      ok, x, offset, size := TakeScanned(ptr, cut, plistindex, pageindex, unused, ro);
      NoneNew(old(cached), windows, cached);
      Stays(old(held), mid, held, old(counts));
      HeldFromLost(old(held), mid, held, if ok then {x} else {}, old(counts));
      if ok {
        FittingLockIs(x, ptr, size, want, ro, cut, old(State()), mid, State());
        LockShows(x, offset, size);
      }
    }

    lemma BigSize()
      requires Valid()
      ensures bigPool.Length1 >= 16
    {
    }

    lemma FittingLockIs(x: Pid, ptr: nat, size: nat, want: nat, ro: bool, cut: nat, s: LockState, mid: map<Pid, Window>, s': LockState)
      requires CutAtLock(ptr, cut, Min(want, bigPool.Length1), mid, s.counts) && OnlyUnusedLost(s.held, mid, s.counts) && LostInside(s.held, mid, ptr, Min(want, bigPool.Length1))
      requires TakenAs(x, ptr, size, cut, mid, s.counts) && ChosenFor(x, ptr, mid, s.counts) && MarkedIf(x, ptr, ro, mid, s'.held)
      ensures FittingLock(x, ptr, size, want, ro, s, s')
    {
      hide CutAtLock, OnlyUnusedLost, LostInside, TakenAs, ChosenFor, MarkedIf, Fitting;
      FittingIs(x, ptr, size, cut, Min(want, bigPool.Length1), s.held, mid, s.counts);
      ChosenBefore(x, ptr, Min(want, bigPool.Length1), s.held, mid, s.counts);
      MarkedBefore(x, ptr, Min(want, bigPool.Length1), ro, s.held, mid, s'.held, s.counts);
    }

    /** The pages that are not locked. */
    ghost function UnlockedPages(): set<Pid>
      reads this`counts
    {
      UnlockedIn(counts)
    }

    ghost function UnlockedIn(k: map<Pid, nat>): set<Pid> {
      set y | y in k && IsPage(y) && k[y] == 0
    }

    /** Some big page is not locked: it is on the free list then. */
    ghost predicate BigUnlocked(k: map<Pid, nat>) {
      exists i :: 0 <= i < bigPool.Length0 && Pid(BIG, i) in k && k[Pid(BIG, i)] == 0
    }

    lemma FreeIsUnlocked()
      requires Valid()
      ensures free.big != [] <==> BigUnlocked(counts)
    {
      hide CacheOk, LayerOk, AllHeld, BigActive;
      Parts();
      if free.big != [] {
        FirstIsUnlocked();
      }
      if i :| 0 <= i < bigPool.Length0 && Pid(BIG, i) in counts && counts[Pid(BIG, i)] == 0 {
        UnlockedIsFree(i);
      }
    }

    lemma FirstIsUnlocked()
      requires CacheOk() && free.big != []
      ensures BigUnlocked(counts)
    {
      hide LayerOk, CachedOk, Buffers;
      Walk(0);
      var i := free.big[0];
      assert info.Has(Pid(BIG, i)) && Pid(BIG, i) !in held;
    }

    lemma UnlockedIsFree(i: int)
      requires CacheOk() && AllHeld(locked, held) && BigActive(held, counts)
      requires 0 <= i < bigPool.Length0 && Pid(BIG, i) in counts && counts[Pid(BIG, i)] == 0
      ensures free.big != []
    {
      hide LayerOk, CachedOk, HeldOk, CountsOk, Buffers;
      assert Partition(info.Of(BIG), free.big, locked.big);
      assert Pid(BIG, i) !in held;
      assert i !in locked.Of(BIG);
    }

    ghost predicate CountsBelow(n: nat)
      reads this`counts
    {
      forall y :: y in counts ==> counts[y] < n
    }

    ghost function State(): LockState
      reads this`held, this`cached, this`counts
    {
      LockState(held, cached, counts)
    }

    /** If `x` is a big page held whole, no big page on the free list overlaps it. */
    ghost predicate Clearance(x: Pid)
      reads this`held, this`cached
    {
      ClearAt(x, held, cached, bigPool.Length1)
    }

    lemma SizeOfBig()
      requires Valid()
      ensures bigPool.Length1 >= 1
    {
    }

    lemma HeldCounted()
      requires Valid()
      ensures forall y :: y in held ==> y in counts && IsPage(y) && held[y].start >= 1 && 1 <= |held[y].data| <= PageSize(y.c)
      ensures |mem| == |base| == store.Length == poolSize
    {
      hide Valid, CacheOk, LayerOk, AllHeld;
      LockWalk(0, 0);
      Parts();
      forall y | y in held
        ensures y in counts && IsPage(y) && held[y].start >= 1 && 1 <= |held[y].data| <= PageSize(y.c)
      {
        HeldFact(y);
      }
    }

    lemma OneHeld(before: map<Pid, Window>, x: Pid)
      requires x in held && held == before[x := held[x]]
      ensures HeldFrom(before, held, {x})
    {
    }

    lemma LockStays(before: map<Pid, Window>, x: Pid)
      requires x in before && x in held && held == before[x := held[x]] && held[x] == before[x].(dirty := held[x].dirty)
      requires before[x].dirty ==> held[x].dirty
      ensures forall cs :: LocksStay(before, held, cs)
    {
    }

    lemma StartOf(x: Pid)
      requires Valid() && x in held
      ensures IsPage(x) && info.Has(x) && x in counts
      ensures info.Page(x).start == held[x].start && info.Page(x).size == |held[x].data|
      ensures x.c == BIG ==> counts[x] > 0
    {
      HeldFact(x);
    }

    // --- releasing locks ---

    method FindLockedIn(c: nat, p: nat) returns (index: int)
      requires CacheOk() && LayerOk(held, base, mem) && AllHeld(locked, held) && c < 3
      ensures index != -1 ==> Pid(c, index) in held && held[Pid(c, index)].Covers(p)
      ensures index == -1 ==> forall x :: x in held && x.c == c ==> !held[x].Covers(p)
    {
      hide CacheOk, LayerOk, AllHeld;
      ghost var n := 0;
      LockWalk0(c, 0);
      index := info.Of(c).lockedIndex;
      while index != -1
        invariant n <= |locked.Of(c)| && index == At(locked.Of(c), n)
        invariant forall m :: 0 <= m < n ==> Pid(c, locked.Of(c)[m]) in held && !held[Pid(c, locked.Of(c)[m])].Covers(p)
        decreases |locked.Of(c)| - n
      {
        LockWalk0(c, n);
        var pg := info.Of(c).pages[index];
        if p >= pg.start && p - pg.start < pg.size {
          return;
        }
        index := pg.next;
        n := n + 1;
      }
      LockWalk0(c, n);
      Listed0(c);
    }

    lemma Listed0(c: nat)
      requires CacheOk() && c < 3
      ensures forall x :: x in held && x.c == c ==> exists m :: 0 <= m < |locked.Of(c)| && locked.Of(c)[m] == x.i
    {
      forall x | x in held && x.c == c
        ensures x.i in locked.Of(c)
      {
        HeldFact(x);
      }
    }

    method FindLockedPage(p: nat) returns (found: bool, x: Pid)
      requires CacheOk() && LayerOk(held, base, mem) && AllHeld(locked, held)
      ensures found ==> x in held && held[x].Covers(p)
      ensures !found ==> forall y :: y in held ==> !held[y].Covers(p)
    {
      var index := FindLockedIn(SMALL, p);
      if index != -1 {
        return true, Pid(SMALL, index);
      }
      index := FindLockedIn(MEDIUM, p);
      if index != -1 {
        return true, Pid(MEDIUM, index);
      }
      index := FindLockedIn(BIG, p);
      found, x := index != -1, Pid(BIG, index);
    }

    lemma OneCovers(x: Pid, y: Pid, p: nat)
      requires LayerOk(held, base, mem) && x in held && y in held && held[x].Covers(p) && held[y].Covers(p)
      ensures x == y
    {
      ApartUnlessSame(held, x, y);
    }

    /** Drops one lock on a page, which is big no longer if this was its last. */
    method DropLock(x: Pid) returns (last: bool)
      requires CacheOk() && LayerOk(held, base, mem) && x in held && x in counts && counts[x] > 0
      modifies this`info, this`held, this`counts
      ensures CacheOk() && LayerOk(held, base, mem) && held == old(held)
      ensures counts == old(counts)[x := old(counts)[x] - 1]
      ensures last == (counts[x] == 0)
    {
      hide ListsOk, CachedOk, HeldOk, CountsOk, LayerOk, Buffers, RowHas, Slice;
      HeldFact(x);
      var pg := info.Page(x);
      SetHeld(x, pg.(locks := pg.locks - 1), held[x]);
      assert held == old(held);
      last := pg.locks == 1;
    }

    /** Drops one lock on the page that holds `ptr`.  A big page goes back to the free list
        with its last lock. */
    method ReleaseLock(ptr: nat) returns (ghost x: Pid)
      requires Valid()
      requires exists y :: y in held && held[y].Covers(ptr) && y in counts && counts[y] > 0
      modifies this`info, this`nextPageToSwap, this`free, this`locked, this`cached, this`held, this`counts, this`base
      modifies store, bigPool
      ensures LastGiven(x, ptr, old(State()), State())
      ensures UpperOk() && (Valid() <==> old(MayRelease(x)))
    {
      hide Valid, CacheOk, Coupled, UpperOk, LayerOk, AllHeld, BigActive, Without, HeldFacts, ClearAt;
      Parts();
      var found, page := FindLockedPage(ptr);
      x := page;
      ghost var y :| y in held && held[y].Covers(ptr) && y in counts && counts[y] > 0;
      OneCovers(x, y, ptr);
      var last := DropLock(page);
      NoneNewSelf(cached);
      if last {
        FreeIfBig(ptr, x);
      } else {
        CacheIsCoupled();
      }
      StillActive(old(held), old(counts), x);
      UpperIs();
    }

    /** A big page that is no longer locked goes back to the free list. */
    method FreeIfBig(ptr: nat, ghost x: Pid)
      requires CacheOk() && LayerOk(held, base, mem) && AllHeld(locked, held)
      requires x in held && held[x].Covers(ptr) && x in counts && counts[x] == 0
      modifies this`info, this`nextPageToSwap, this`free, this`locked, this`cached, this`held, this`base
      modifies store, bigPool
      ensures Coupled() && |base| == store.Length && LayerOk(held, base, mem) && AllHeld(locked, held)
      ensures CacheOk() <==> old(Clearance(x))
      ensures held == if x.c == BIG then old(held) - {x} else old(held)
      ensures if x.c == BIG && |old(held)[x].data| == bigPool.Length1 then cached == old(cached)[x.i := old(held)[x]]
              else NoNewWindows(old(cached), cached)
    {
      hide CacheOk, Coupled, LayerOk, AllHeld, Without, HeldFacts, ClearAt, NoNewWindows;
      NoneNewSelf(cached);
      var index := FindLockedIn(BIG, ptr);
      if index != -1 {
        OneCovers(x, Pid(BIG, index), ptr);
        Listed0(BIG);
        ghost var m :| 0 <= m < |locked.big| && locked.big[m] == index;
        AllHeldFreed(BIG, m);
        var ret := FreeLockedPage(BIG, index, m);
      } else {
        CacheIsCoupled();
        ClearUnlessFull(x);
      }
    }

    /** Whether the last lock of a page may go: the page does not then overlap one in the cache. */
    ghost predicate MayRelease(x: Pid)
      reads this`held, this`cached, this`counts
    {
      x in counts && (counts[x] == 1 ==> Clearance(x))
    }

    /** One lock is given back of the page that holds `ptr`. */
    ghost predicate LastGiven(x: Pid, ptr: nat, s: LockState, s': LockState) {
      GivenBack(x, bigPool.Length1, s, s') && s.held[x].Covers(ptr)
    }

    /** All of `Valid` but for what the lower layer shows. */
    ghost predicate UpperOk()
      reads this, store, smallPool, mediumPool, bigPool
    {
      Coupled() && |base| == store.Length && LayerOk(held, base, mem) && AllHeld(locked, held) && BigActive(held, counts)
    }

    lemma UpperIs()
      requires Coupled() && |base| == store.Length && LayerOk(held, base, mem) && AllHeld(locked, held) && BigActive(held, counts)
      ensures UpperOk() && (Valid() <==> CacheOk())
    {
      hide ListsOk, CachedOk, HeldOk, CountsOk, LayerOk, Buffers;
    }

    lemma StillActive(before: map<Pid, Window>, k: map<Pid, nat>, x: Pid)
      requires BigActive(before, k) && x in k && k[x] > 0 && counts == k[x := k[x] - 1]
      requires held == if x.c == BIG && counts[x] == 0 then before - {x} else before
      ensures BigActive(held, counts)
    {
    }

    // --- reading and writing ---

    /** Copies a whole held page into the lower layer, so that a free big page shows it too. */
    method MirrorPage(x: Pid)
      requires Valid() && x in held && free.big != []
      modifies this`info, this`cached, this`nextPageToSwap, this`base, store, bigPool
      ensures Valid()
      ensures Mirrored(held[x], base, mem) && Nearer(old(base), base, mem)
    {
      hide Valid, CacheOk, LayerOk, AllHeld, HeldFacts, Slice;
      Parts();
      HeldBytesNow(x);
      ghost var was := base;
      var pg := info.Page(x);
      PushRawData(pg.start, Slice(Pool(x.c), x.i, 0, pg.size));
      SaveDown(held, was, mem, x, base);
      Whole();
    }

    lemma HeldBytesNow(x: Pid)
      requires CacheOk() && x in held
      ensures IsPage(x) && info.Has(x) && x in counts
      ensures info.Page(x).start == held[x].start && info.Page(x).size == |held[x].data| <= PageSize(x.c) <= bigPool.Length1
      ensures 1 <= held[x].start && 1 <= |held[x].data| && held[x].start + |held[x].data| <= store.Length
      ensures info.Page(x).dirty == held[x].dirty && info.Page(x).locks == counts[x]
      ensures Slice(Pool(x.c), x.i, 0, |held[x].data|) == held[x].data
    {
      HeldFact(x);
    }

    /** Looks through one locked list for a page that holds all of [p, p + size), and
        mirrors every page it passes that holds only part of it. */
    method MirrorClass(c: nat, p: nat, size: nat) returns (hit: int)
      requires Valid() && c < 3 && 1 <= size
      requires free.big != [] || exists x :: x in held && Fits(held[x], p, size, false)
      modifies this`info, this`cached, this`nextPageToSwap, this`base, store, bigPool
      ensures Valid()
      ensures hit != -1 ==> Pid(c, hit) in held && Fits(held[Pid(c, hit)], p, size, false)
      ensures hit == -1 ==> forall x :: x in held && x.c == c ==> Passed(held[x], p, size, base, mem)
      ensures Nearer(old(base), base, mem)
    {
      hide Valid, HeldFacts, Mirrored, Nearer;
      NearerSelf(base, mem);
      ghost var n := 0;
      LockWalk(c, 0);
      hit := info.Of(c).lockedIndex;
      while hit != -1
        invariant Valid()
        invariant n <= |locked.Of(c)| && hit == At(locked.Of(c), n)
        invariant forall m :: 0 <= m < n ==>
          var x := Pid(c, locked.Of(c)[m]); x in held && Passed(held[x], p, size, base, mem)
        invariant Nearer(old(base), base, mem)
        decreases |locked.Of(c)| - n
      {
        LockWalk(c, n);
        LockedHas(c, n);
        var pg := info.Of(c).pages[hit];
        var beginoverlaps := p >= pg.start && p < pg.start + pg.size;
        var endoverlaps := p < pg.start && p + size > pg.start;
        if beginoverlaps {
          var offset := p - pg.start;
          if offset + size <= pg.size {
            return;
          }
        }
        if beginoverlaps || endoverlaps {
          NoneFits(Pid(c, hit), p, size);
          ghost var was := base;
          MirrorPage(Pid(c, hit));
          StillMirrored(was);
          NearerStill(old(base), was, base, mem);
        }
        LockWalk(c, n);
        hit := info.Of(c).pages[hit].next;
        n := n + 1;
      }
      LockWalk(c, n);
      LockedHas(c, n);
      Listed(c);
    }

    lemma StillMirrored(was: seq<byte>)
      requires Nearer(was, base, mem)
      ensures forall x, p, size :: x in held && Passed(held[x], p, size, was, mem) ==> Passed(held[x], p, size, base, mem)
    {
    }

    /** A page that holds part of a range shuts out any that holds all of it. */
    lemma NoneFits(x: Pid, p: nat, size: nat)
      requires Valid() && x in held && 1 <= size && !Misses(held[x], p, size) && !Fits(held[x], p, size, false)
      ensures forall y :: y in held ==> !Fits(held[y], p, size, false)
    {
      forall y | y in held
        ensures !Fits(held[y], p, size, false)
      {
        ApartUnlessSame(held, x, y);
      }
    }

    /** Finds a buffer, and the place in it, that shows [p, p + size). */
    method Read(p: nat, size: nat) returns (x: Pid, offset: nat)
      requires Valid() && 1 <= p && 1 <= size <= bigPool.Length1 && p + size <= store.Length
      requires free.big != [] || exists y :: y in held && Fits(held[y], p, size, false)
      modifies this`info, this`cached, this`nextPageToSwap, this`base, store, bigPool
      ensures Valid()
      ensures IsPage(x) && offset + size <= PageSize(x.c) && p + size <= |mem|
      ensures Slice(Pool(x.c), x.i, offset, size) == mem[p..p + size]
      ensures (x in held && Fits(held[x], p, size, false)) || InWindow(x, offset, p, size)
    {
      hide Valid, Passed, Nearer, Slice, CacheOk, LayerOk, AllHeld, Fits;
      var pindex := 0;
      while pindex < 3
        invariant 0 <= pindex <= 3
        invariant Valid()
        invariant free.big != [] || exists y :: y in held && Fits(held[y], p, size, false)
        invariant forall y :: y in held && y.c < pindex ==> Passed(held[y], p, size, base, mem)
      {
        ghost var was := base;
        var hit := MirrorClass(pindex, p, size);
        if hit != -1 {
          x, offset := PlaceIn(Pid(pindex, hit), p, size);
          return;
        }
        StillMirrored(was);
        pindex := pindex + 1;
      }
      Parts();
      x, offset := PullFor(p, size);
    }

    /** A free big page holds [p, p + size), from its byte `offset` on. */
    ghost predicate InWindow(x: Pid, offset: nat, p: nat, size: nat)
      reads this`cached
    {
      x.c == BIG && x.i in cached && cached[x.i].start + offset == p && offset + size <= |cached[x.i].data|
    }

    method PlaceIn(page: Pid, p: nat, size: nat) returns (x: Pid, offset: nat)
      requires Valid() && page in held && Fits(held[page], p, size, false)
      ensures IsPage(x) && offset + size <= PageSize(x.c) && p + size <= |mem|
      ensures Slice(Pool(x.c), x.i, offset, size) == mem[p..p + size]
      ensures x == page
    {
      hide Valid, Slice;
      x := page;
      StartOf(x);
      offset := p - info.Page(x).start;
      LockShows(x, offset, size);
    }

    /** Reading through the lower layer, once it shows all that is asked for. */
    method PullFor(p: nat, size: nat) returns (x: Pid, offset: nat)
      requires Valid() && 1 <= p && 1 <= size <= bigPool.Length1 && p + size <= store.Length
      requires free.big != [] || exists y :: y in held && Fits(held[y], p, size, false)
      requires forall y :: y in held ==> Passed(held[y], p, size, base, mem)
      modifies this`info, this`cached, this`nextPageToSwap, this`base, store, bigPool
      ensures Valid()
      ensures IsPage(x) && offset + size <= PageSize(x.c) && p + size <= |mem|
      ensures Slice(Pool(x.c), x.i, offset, size) == mem[p..p + size]
      ensures InWindow(x, offset, p, size)
    {
      hide Valid, Mirrored, Slice, CacheOk, LayerOk, AllHeld;
      Parts();
      AllMirrored(p, size);
      var index;
      index, offset := PullRawData(p, size, true, false);
      Whole();
      CachedShows(index, offset, size);
      x := Pid(BIG, index);
      assert base[p..p + size] == mem[p..p + size];
    }

    lemma AllMirrored(p: nat, size: nat)
      requires LayerOk(held, base, mem) && forall x :: x in held ==> Passed(held[x], p, size, base, mem)
      ensures forall a :: p <= a < p + size && a < |mem| ==> base[a] == mem[a]
    {
      forall x, a | x in held && held[x].Covers(a) && p <= a < p + size && a < |mem|
        ensures base[a] == mem[a]
      {
        assert Passed(held[x], p, size, base, mem);
      }
      AllSavedShowsBelow(held, base, mem, p, size);
    }

    lemma CachedShows(i: int, offset: nat, size: nat)
      requires CacheOk() && i in cached && offset + size <= bigPool.Length1 && cached[i].start + offset + size <= |base|
      ensures 0 <= i < bigPool.Length0
      ensures Slice(bigPool, i, offset, size) == base[cached[i].start + offset..cached[i].start + offset + size]
    {
      hide CacheOk;
      CachedRow(i);
      var s := Slice(bigPool, i, offset, size);
      forall j | 0 <= j < size
        ensures s[j] == base[cached[i].start + offset + j]
      {
        assert bigPool[i, offset + j] == base[cached[i].start + (offset + j)];
      }
    }

    lemma CachedRow(i: int)
      requires CacheOk() && i in cached
      ensures 0 <= i < bigPool.Length0
      ensures forall j :: 0 <= j < bigPool.Length1 && cached[i].start + j < |base| ==> bigPool[i, j] == base[cached[i].start + j]
    {
      RowShowsBase(i);
      Idle(i);
    }

    lemma BuffersPoked(x: Pid, w: Window)
      requires Buffers(cached, held - {x}) && x.c < 3 && RowHas(Pool(x.c), x.i, w.data)
      ensures Buffers(cached, held[x := w])
    {
      forall y | y in held[x := w]
        ensures y.c < 3 && RowHas(Pool(y.c), y.i, held[x := w][y].data)
      {
        assert y != x ==> y in held - {x} && (held - {x})[y] == held[y];
      }
    }

    /** memcpy into the buffer of a held page, of bytes that may run past its end there. */
    method PokeBuffer(x: Pid, off: nat, d: seq<byte>, ghost w: Window)
      requires Config() && Buffers(cached, held)
      requires x in held && IsPage(x) && off + |d| <= PageSize(x.c) && (x.c == BIG ==> x.i !in cached)
      requires |w.data| == |held[x].data| && Stored(held[x].data, off, d, w.data)
      modifies Pool(x.c), this`held
      ensures Buffers(cached, held)
      ensures held == old(held)[x := w]
    {
      ghost var was := held;
      assert RowHas(Pool(x.c), x.i, was[x].data);
      held := held - {x};
      assert Buffers(cached, held);
      Fill(x, off, d);
      assert RowHas(Pool(x.c), x.i, w.data);
      held := was;
      BuffersPoked(x, w);
      held := was[x := w];
    }

    /** Stores bytes into a dirty held page.  Those that run past its end are lost. */
    method PokeHeld(x: Pid, off: nat, d: seq<byte>) returns (ghost cut: seq<byte>)
      requires Valid() && x in held && held[x].dirty
      requires off <= |held[x].data| && IsPage(x) && off + |d| <= PageSize(x.c)
      modifies Pool(x.c), this`held, this`mem
      ensures Valid()
      ensures x in held && held == old(held)[x := held[x]]
      ensures held[x].start == old(held)[x].start && |held[x].data| == |old(held)[x].data| && held[x].dirty
      ensures cut == d[..Min(|d|, |held[x].data| - off)] && Stored(old(mem), held[x].start + off, cut, mem)
    {
      hide ListsOk, CachedOk, HeldOk, CountsOk, LayerOk, Buffers, AllHeld, BigActive, HeldFacts, Slice, RowHas;
      HeldPlace(x);
      ghost var v := held[x];
      cut := d[..Min(|d|, |held[x].data| - off)];
      ghost var w, mem' := v.(data := Put(v.data, off, cut)), Put(mem, v.start + off, cut);
      StoreInside(held, base, mem, x, off, cut, w.data, mem');
      HeldRewritten(info, locked, held, counts, store.Length, x, w);
      AllHeldSet(locked, held, x, w);
      BigActiveSet(x, w);
      PokeBuffer(x, off, d, w);
      mem := mem';
    }

    lemma HeldPlace(x: Pid)
      requires Coupled() && x in held
      ensures IsPage(x) && (x.c == BIG ==> x.i !in cached)
    {
      HeldFact(x);
    }

    lemma BigActiveSet(x: Pid, w: Window)
      requires BigActive(held, counts) && x in held
      ensures BigActive(held[x := w], counts)
    {
    }

    /** Marks a held page dirty. */
    method SetDirty(x: Pid)
      requires Valid() && x in held
      modifies this`info, this`held, this`counts
      ensures Valid() && held == old(held)[x := Dirty(old(held)[x])] && counts == old(counts)
    {
      hide ListsOk, CachedOk, HeldOk, CountsOk, LayerOk, Buffers, AllHeld, BigActive, RowHas, Slice;
      HeldFact(x);
      MarkHeld(x, true);
      AllHeldSet(locked, held, x, Dirty(held[x]));
      BigActiveSet(x, Dirty(held[x]));
      SetHeld(x, info.Page(x).(dirty := true), Dirty(held[x]));
      assert counts == old(counts);
    }

    /** Stores what falls into one held page; done when that is all of it. */
    method StorePart(x: Pid, p: nat, d: seq<byte>) returns (done: bool)
      requires Valid() && x in held && 1 <= |d| && !Misses(held[x], p, |d|)
      requires p < held[x].start ==> p + |d| - held[x].start <= PageSize(x.c)
      modifies this`info, this`held, this`counts, this`mem, smallPool, mediumPool, bigPool
      ensures Valid() && counts == old(counts)
      ensures SameShape(old(held), held)
      ensures StoredPart(old(mem), mem, p, d) && x in held && Has(held[x], mem, p, d)
      ensures done == Fits(held[x], p, |d|, false)
    {
      hide Valid, Slice, Stored, StoredPart, Has;
      StartOf(x);
      Sizes(x);
      SetDirty(x);
      StartOf(x);
      var pg := info.Page(x);
      ghost var s, e := if p < pg.start then pg.start - p else 0, [];
      if p >= pg.start {
        var offset := p - pg.start;
        if offset + |d| <= pg.size {
          e := PokeHeld(x, offset, d);
          done := true;
        } else {
          e := PokeHeld(x, offset, d[..pg.size - offset]);
          done := false;
        }
      } else {
        e := PokeHeld(x, 0, d[pg.start - p..]);
        done := false;
      }
      assert e == d[s..s + |e|];
      StoredPiece(old(mem), mem, held[x], p, d, s, e);
    }

    lemma Sizes(x: Pid)
      requires Valid() && x in held
      ensures IsPage(x) && |held[x].data| <= PageSize(x.c) && held[x].start + |held[x].data| <= |mem|
    {
      HeldFact(x);
    }

    /** No locked page inside the range to write is smaller than the rest of the range. */
    ghost predicate WriteFits(p: nat, n: nat)
      reads this`held
    {
      FitsIn(held, p, n)
    }

    ghost predicate FitsIn(h: map<Pid, Window>, p: nat, n: nat) {
      forall x :: x in h && p < h[x].start < p + n ==> p + n - h[x].start <= PageSize(x.c)
    }

    lemma WriteStillFits(before: map<Pid, Window>, p: nat, n: nat)
      requires SameShape(before, held)
      requires forall x :: x in before && p < before[x].start < p + n ==> p + n - before[x].start <= PageSize(x.c)
      ensures WriteFits(p, n)
    {
    }

    /** Looks through one locked list for pages that hold any of the bytes to write, and
        stores them there; done once one page has taken all of them. */
    method WriteClass(c: nat, p: nat, d: seq<byte>) returns (done: bool)
      requires Valid() && c < 3 && 1 <= |d| && WriteFits(p, |d|)
      modifies this`info, this`held, this`counts, this`mem, smallPool, mediumPool, bigPool
      ensures Valid() && counts == old(counts)
      ensures SameShape(old(held), held) && StoredPart(old(mem), mem, p, d)
      ensures done ==> Stored(old(mem), p, d, mem)
      ensures !done ==> forall x :: x in held && x.c == c ==> Written(held[x], mem, p, d)
    {
      hide Valid, HeldFacts, Stored, StoredPart, Has, Written, SameShape, WriteFits;
      StoredPartNone(mem, p, d);
      SameShapeSelf(held);
      ghost var n := 0;
      LockWalk(c, 0);
      var i := info.Of(c).lockedIndex;
      while i != -1
        invariant Valid() && counts == old(counts)
        invariant n <= |locked.Of(c)| && i == At(locked.Of(c), n)
        invariant SameShape(old(held), held) && StoredPart(old(mem), mem, p, d) && WriteFits(p, |d|)
        invariant forall m :: 0 <= m < n ==> var x := Pid(c, locked.Of(c)[m]); x in held && Written(held[x], mem, p, d)
        decreases |locked.Of(c)| - n
      {
        LockWalk(c, n);
        LockedHas(c, n);
        var x, pg := Pid(c, i), info.Of(c).pages[i];
        var beginoverlaps := p >= pg.start && p < pg.start + pg.size;
        var endoverlaps := p < pg.start && p + |d| > pg.start;
        if beginoverlaps || endoverlaps {
          done := StoreNext(x, p, d, c, n, old(held), old(mem));
          if done {
            return;
          }
        } else {
          AfterMiss(held[x], mem, p, d);
        }
        LockWalk(c, n);
        i := info.Of(c).pages[i].next;
        n := n + 1;
      }
      LockWalk(c, n);
      LockedHas(c, n);
      Listed(c);
      done := false;
    }

    lemma SameShapeSelf(h: map<Pid, Window>)
      ensures SameShape(h, h)
    {
    }

    lemma AfterMiss(w: Window, m: seq<byte>, p: nat, d: seq<byte>)
      requires Misses(w, p, |d|) && 1 <= |d|
      ensures Written(w, m, p, d)
    {
    }

    /** The next page of a walk that stores: what the earlier pages hold stays stored. */
    method StoreNext(x: Pid, p: nat, d: seq<byte>, c: nat, ghost n: nat, ghost held0: map<Pid, Window>, ghost mem0: seq<byte>)
      returns (done: bool)
      requires Valid() && x in held && 1 <= |d| && !Misses(held[x], p, |d|) && WriteFits(p, |d|)
      requires SameShape(held0, held) && StoredPart(mem0, mem, p, d)
      modifies this`info, this`held, this`counts, this`mem, smallPool, mediumPool, bigPool
      ensures Valid() && counts == old(counts) && WriteFits(p, |d|)
      ensures SameShape(held0, held) && StoredPart(mem0, mem, p, d) && x in held
      ensures done ==> Stored(mem0, p, d, mem)
      ensures !done ==> Written(held[x], mem, p, d)
      ensures forall y :: y in old(held) && Written(old(held)[y], old(mem), p, d) ==> y in held && Written(held[y], mem, p, d)
    {
      hide Valid, Stored, StoredPart, Has;
      done := StorePart(x, p, d);
      StoredPartsHave(mem0, old(mem), mem, p, d);
      WrittenStays(old(mem), mem, p, d);
      SameShapes(held0, old(held), held);
      if done {
        StoredWhole(mem0, mem, held[x], p, d);
      }
    }

    /** Writes bytes, to the pages that are locked where they are, or else to memory below. */
    method Write(p: nat, d: seq<byte>)
      requires Valid() && 1 <= p && 1 <= |d| <= bigPool.Length1 && p + |d| <= store.Length
      requires free.big != [] || exists y :: y in held && Fits(held[y], p, |d|, false)
      requires WriteFits(p, |d|)
      modifies this`info, this`cached, this`nextPageToSwap, this`held, this`counts, this`base, this`mem
      modifies store, smallPool, mediumPool, bigPool
      ensures Valid() && counts == old(counts)
      ensures Stored(old(mem), p, d, mem)
      ensures SameShape(old(held), held)
    {
      hide Valid, Stored, StoredPart, Has, Written, WriteFits, SameShape, Fits;
      StoredPartNone(mem, p, d);
      SameShapeSelf(held);
      var pindex := 0;
      while pindex < 3
        invariant 0 <= pindex <= 3
        invariant Valid() && counts == old(counts)
        invariant SameShape(old(held), held) && StoredPart(old(mem), mem, p, d) && WriteFits(p, |d|)
        invariant forall y :: y in held && y.c < pindex ==> Written(held[y], mem, p, d)
      {
        var done := WriteNext(pindex, p, d, old(held), old(mem));
        if done {
          return;
        }
        pindex := pindex + 1;
      }
      Parts();
      NoneFitsNow(old(held), p, d);
      ghost var mid := mem;
      FinishWrite(p, d);
      StoredRest(old(mem), mid, mem, p, d);
    }

    lemma NoneFitsNow(before: map<Pid, Window>, p: nat, d: seq<byte>)
      requires SameShape(before, held) && forall y :: y in held ==> Written(held[y], mem, p, d)
      ensures !exists y :: y in before && Fits(before[y], p, |d|, false)
    {
      forall y | y in before
        ensures !Fits(before[y], p, |d|, false)
      {
        assert y in held;
      }
    }

    method WriteNext(c: nat, p: nat, d: seq<byte>, ghost held0: map<Pid, Window>, ghost mem0: seq<byte>) returns (done: bool)
      requires Valid() && c < 3 && 1 <= |d| && WriteFits(p, |d|)
      requires SameShape(held0, held) && StoredPart(mem0, mem, p, d)
      modifies this`info, this`held, this`counts, this`mem, smallPool, mediumPool, bigPool
      ensures Valid() && counts == old(counts) && WriteFits(p, |d|)
      ensures SameShape(held0, held) && StoredPart(mem0, mem, p, d)
      ensures done ==> Stored(mem0, p, d, mem)
      ensures !done ==> forall y :: y in held && y.c == c ==> Written(held[y], mem, p, d)
      ensures forall y :: y in old(held) && Written(old(held)[y], old(mem), p, d) ==> y in held && Written(held[y], mem, p, d)
      ensures forall y :: y in held ==> y in old(held)
    {
      hide Valid, Stored, StoredPart, Has, Written;
      done := WriteClass(c, p, d);
      WriteStillFits(old(held), p, |d|);
      WrittenStays(old(mem), mem, p, d);
      SameShapes(held0, old(held), held);
      StoredPartsHave(mem0, old(mem), mem, p, d);
      if done {
        StoredRest(mem0, old(mem), mem, p, d);
      }
    }

    /** The last step of a write that no locked page takes whole. */
    method FinishWrite(p: nat, d: seq<byte>)
      requires Valid() && free.big != [] && 1 <= p && 1 <= |d| <= bigPool.Length1 && p + |d| <= store.Length
      requires forall y :: y in held ==> Written(held[y], mem, p, d)
      modifies this`info, this`cached, this`nextPageToSwap, this`base, this`mem, store, bigPool
      ensures Valid()
      ensures Stored(old(mem), p, d, mem)
    {
      hide Valid, CacheOk, LayerOk, AllHeld, Stored, Has;
      Parts();
      ghost var was, mem' := base, Put(mem, p, d);
      PushRawData(p, d);
      WrittenEverywhere(p, d);
      FinishStore(held, was, mem, p, d, base, mem');
      mem := mem';
      Whole();
    }

    lemma WrittenEverywhere(p: nat, d: seq<byte>)
      requires forall y :: y in held ==> Written(held[y], mem, p, d)
      ensures forall y, a :: y in held && held[y].Covers(a) && p <= a < p + |d| && a < |mem| ==> mem[a] == d[a - p]
    {
    }

    /** A store through the buffer of a lock that may be written. */
    method StoreLocked(x: Pid, offset: nat, d: seq<byte>)
      requires Valid() && x in held && held[x].dirty && offset + |d| <= |held[x].data|
      modifies Pool(x.c), this`held, this`mem
      ensures Valid()
      ensures x in held && held == old(held)[x := held[x]]
      ensures held[x].start == old(held)[x].start && |held[x].data| == |old(held)[x].data| && held[x].dirty
      ensures Stored(old(mem), held[x].start + offset, d, mem)
    {
      hide Valid;
      Sizes(x);
      ghost var cut := PokeHeld(x, offset, d);
      assert cut == d;
    }

    // --- writing everything back ---

    /** Writes every big page back, and says so: the backing pool is then the lower layer. */
    method Flush()
      requires Valid()
      modifies this`info, this`cached, store
      ensures Valid()
      ensures store[..] == base
      ensures forall a :: 0 <= a < |mem| && !DirtyAt(held, a) ==> store[a] == mem[a]
      ensures NoNewWindows(old(cached), cached) && cached.Keys == old(cached).Keys
      ensures forall i :: i in cached ==> !cached[i].dirty
    {
      hide Valid, CacheOk, LayerOk, AllHeld;
      Parts();
      ghost var n := 0;
      Walk(0);
      var i := info.big.freeIndex;
      while i != -1
        invariant CacheOk() && n <= |free.big| && i == At(free.big, n)
        invariant NoNewWindows(old(cached), cached) && cached.Keys == old(cached).Keys
        invariant forall m :: 0 <= m < n && free.big[m] in cached ==> !cached[free.big[m]].dirty
        decreases |free.big| - n
      {
        Walk(n);
        if info.big.pages[i].start != 0 {
          SyncBigPage(i);
        }
        Walk(n);
        i := info.big.pages[i].next;
        n := n + 1;
      }
      Walk(n);
      AllClean(n);
      Whole();
      PoolShows();
    }

    lemma AllClean(n: nat)
      requires CacheOk() && n == |free.big|
      requires forall m :: 0 <= m < n && free.big[m] in cached ==> !cached[free.big[m]].dirty
      ensures store[..] == base && forall i :: i in cached ==> !cached[i].dirty
    {
      forall i | i in cached
        ensures !cached[i].dirty
      {
        assert i in free.big;
      }
      AllCleanShowsBelow(cached, store[..], base);
    }

    lemma PoolShows()
      requires LayerOk(held, base, mem) && store[..] == base
      ensures forall a :: 0 <= a < |mem| && !DirtyAt(held, a) ==> store[a] == mem[a]
    {
      forall a | 0 <= a < |mem| && !DirtyAt(held, a)
        ensures store[a] == mem[a]
      {
        assert store[a] == store[..][a] == base[a];
      }
    }

    /** Writes every big page back and empties it. */
    method ClearPages()
      requires Valid()
      modifies this`info, this`cached, store
      ensures Valid()
      ensures store[..] == base && cached == map[]
      ensures forall a :: 0 <= a < |mem| && !DirtyAt(held, a) ==> store[a] == mem[a]
    {
      hide Valid, CacheOk, LayerOk, AllHeld;
      Parts();
      ghost var n := 0;
      Walk(0);
      var i := info.big.freeIndex;
      while i != -1
        invariant CacheOk() && n <= |free.big| && i == At(free.big, n)
        invariant forall m :: 0 <= m < n ==> free.big[m] !in cached
        decreases |free.big| - n
      {
        Walk(n);
        if info.big.pages[i].start != 0 {
          Evict(i);
        }
        Walk(n);
        i := info.big.pages[i].next;
        n := n + 1;
      }
      Walk(n);
      NothingCached(n);
      Whole();
      PoolShows();
    }

    lemma NothingCached(n: nat)
      requires CacheOk() && n == |free.big| && forall m :: 0 <= m < n ==> free.big[m] !in cached
      ensures cached == map[] && store[..] == base
    {
      assert forall i :: i !in cached;
      assert cached == map[];
      AllCleanShowsBelow(cached, store[..], base);
    }

    // --- counting pages ---

    method GetFreeBigPages() returns (ret: nat)
      requires Valid()
      ensures ret + |cached| == |free.big|
    {
      hide Valid, CacheOk, LayerOk, AllHeld;
      Parts();
      ghost var n, seen: set<int> := 0, {};
      ret := 0;
      Walk(0);
      var i := info.big.freeIndex;
      while i != -1
        invariant n <= |free.big| && i == At(free.big, n)
        invariant ret + |seen| == n
        invariant forall j :: j in seen <==> j in cached && exists m :: 0 <= m < n && free.big[m] == j
        decreases |free.big| - n
      {
        Walk(n);
        if info.big.pages[i].start == 0 {
          ret := ret + 1;
        } else {
          seen := seen + {i};
        }
        i := info.big.pages[i].next;
        n := n + 1;
      }
      Walk(n);
      AllCachedListed();
      assert forall j :: j in seen <==> j in cached.Keys;
      assert seen == cached.Keys && |cached| == |cached.Keys|;
    }

    lemma AllCachedListed()
      requires CacheOk()
      ensures forall j :: j in cached ==> exists m :: 0 <= m < |free.big| && free.big[m] == j
    {
      forall j | j in cached
        ensures exists m :: 0 <= m < |free.big| && free.big[m] == j
      {
        assert j in free.big;
      }
    }

    /** The pages of a class that no lock is on. */
    ghost function Unlocked(c: nat): set<int>
      reads this`counts
    {
      set i: int | 0 <= i < Pool(c).Length0 && Pid(c, i) in counts && counts[Pid(c, i)] == 0
    }

    /** The number of pages of a class that no lock is on. */
    method GetUnlockedPages(c: nat) returns (ret: nat)
      requires Valid() && c < 3
      ensures ret == |Unlocked(c)|
    {
      hide Valid, HeldFacts;
      ghost var seen;
      ret, seen := CountFree(c);
      ghost var n := 0;
      LockWalk(c, 0);
      var i := info.Of(c).lockedIndex;
      while i != -1
        invariant n <= |locked.Of(c)| && i == At(locked.Of(c), n)
        invariant ret == |seen|
        invariant forall m :: n <= m < |locked.Of(c)| ==> locked.Of(c)[m] !in seen
        invariant forall j :: j in free.Of(c) ==> j in seen
        invariant forall m :: 0 <= m < n && IsUnused(c, locked.Of(c)[m]) ==> locked.Of(c)[m] in seen
        invariant forall j :: j in seen ==> j in free.Of(c) || IsUnused(c, j)
        decreases |locked.Of(c)| - n
      {
        LockWalk(c, n);
        LockedHas(c, n);
        ListedOnce(c, n);
        if info.Of(c).pages[i].locks == 0 {
          ret := ret + 1;
          seen := seen + {i};
        }
        i := info.Of(c).pages[i].next;
        n := n + 1;
      }
      LockWalk(c, n);
      LockedHas(c, n);
      UnlockedAre(c);
      assert seen == Unlocked(c);
    }

    /** A page still on the locked list that no lock is on. */
    ghost predicate IsUnused(c: nat, i: int)
      reads this`info, this`locked
    {
      i in locked.Of(c) && info.Has(Pid(c, i)) && info.Page(Pid(c, i)).locks == 0
    }

    method CountFree(c: nat) returns (ret: nat, ghost seen: set<int>)
      requires Valid() && c < 3
      ensures ret == |seen| && forall j :: j in seen <==> j in free.Of(c)
      ensures forall m :: 0 <= m < |locked.Of(c)| ==> locked.Of(c)[m] !in seen
    {
      hide Valid;
      ghost var n := 0;
      ret, seen := 0, {};
      FreeWalk(c, 0);
      var i := info.Of(c).freeIndex;
      while i != -1
        invariant n <= |free.Of(c)| && i == At(free.Of(c), n)
        invariant ret == |seen|
        invariant forall m :: 0 <= m < n ==> free.Of(c)[m] in seen
        invariant forall m :: n <= m < |free.Of(c)| ==> free.Of(c)[m] !in seen
        invariant forall j :: j in seen ==> j in free.Of(c) && j !in locked.Of(c)
        decreases |free.Of(c)| - n
      {
        FreeWalk(c, n);
        ret := ret + 1;
        seen := seen + {i};
        i := info.Of(c).pages[i].next;
        n := n + 1;
      }
      FreeWalk(c, n);
      forall m | 0 <= m < |locked.Of(c)|
        ensures locked.Of(c)[m] !in seen
      {
        ListedOnce(c, m);
      }
    }

    lemma FreeWalk(c: nat, n: nat)
      requires Valid() && c < 3
      ensures info.Of(c).freeIndex == At(free.Of(c), 0)
      ensures n < |free.Of(c)| ==>
                var i := free.Of(c)[n];
                && 0 <= i < |info.Of(c).pages| && info.Of(c).pages[i].next == At(free.Of(c), n + 1)
                && i in free.Of(c) && i !in locked.Of(c)
                && forall m :: 0 <= m < |free.Of(c)| && m != n ==> free.Of(c)[m] != i
    {
      FreeStep(info, free, locked, nextPageToSwap, c, n);
    }

    lemma ListedOnce(c: nat, n: nat)
      requires Valid() && c < 3
      ensures n < |locked.Of(c)| ==>
                var i := locked.Of(c)[n];
                i !in free.Of(c) && forall m :: 0 <= m < |locked.Of(c)| && m != n ==> locked.Of(c)[m] != i
    {
      LockedStep(info, free, locked, nextPageToSwap, c, n);
    }

    lemma UnlockedAre(c: nat)
      requires Valid() && c < 3
      ensures forall j :: j in Unlocked(c) <==> (j in free.Of(c) || IsUnused(c, j))
    {
      assert Partition(info.Of(c), free.Of(c), locked.Of(c));
      forall j
        ensures j in Unlocked(c) <==> (j in free.Of(c) || IsUnused(c, j))
      {
        if j in free.Of(c) {
          assert Pid(c, j) !in held;
          assert info.Has(Pid(c, j));
        }
      }
    }

    // --- locks of a given size ---

    /** Cuts an unused page short, saving what it no longer holds. */
    method ShrinkUnused(x: Pid, size: nat)
      requires Valid() && x in held && x in counts && counts[x] == 0 && 1 <= size < |held[x].data|
      modifies this`info, this`cached, this`held, this`counts, this`base, store, bigPool
      ensures Valid() && counts == old(counts)
      ensures x in old(held) && held == old(held)[x := old(held)[x].(data := old(held)[x].data[..size])]
      ensures NoNewWindows(old(cached), cached)
    {
      hide Valid, CacheOk, LayerOk, AllHeld, BigActive, Slice;
      Parts();
      HeldBytesNow(x);
      ghost var w, was := held[x], base;
      var pg := info.Page(x);
      SaveRawData(Slice(Pool(x.c), x.i, 0, pg.size)[size..], pg.start + size);
      ShrunkLayer(x, size, was);
      ghost var w' := w.(data := w.data[..size]);
      AllHeldSet(locked, held, x, w');
      BigActiveSet(x, w');
      HeldPrefix(x, size);
      ResizeHeld(x, size, w');
      Whole();
    }

    lemma HeldPrefix(x: Pid, size: nat)
      requires CacheOk() && x in held && size <= |held[x].data|
      ensures RowHas(Pool(x.c), x.i, held[x].data[..size])
    {
      hide ListsOk, CachedOk, HeldOk, CountsOk, LayerOk, Buffers, RowHas, Slice;
      HeldFact(x);
      RowPrefix(Pool(x.c), x.i, held[x].data, size);
    }

    /** Extends a held page over addresses no other page holds. */
    method GrowHeld(x: Pid, size: nat)
      requires Valid() && x in held && |held[x].data| < size <= PageSize(x.c) && held[x].start + size <= store.Length
      requires forall y :: y in held && y != x ==> Misses(held[y], held[x].start, size)
      modifies this`info, this`held, this`counts, smallPool, mediumPool, bigPool
      ensures Valid() && counts == old(counts)
      ensures Grown(x, size, old(held), held)
    {
      hide Valid, CacheOk, LayerOk, AllHeld, BigActive, Slice, RowHas;
      Parts();
      HeldBytesNow(x);
      HeldPlaced(x);
      ghost var w := held[x];
      var offset := info.Page(x).size;
      CopyRawData(x, offset, info.Page(x).start + offset, size - offset);
      ghost var more := Slice(Pool(x.c), x.i, offset, size - offset);
      ghost var w' := w.(data := w.data + more);
      GrownLayer(x, size, more);
      AllHeldSet(locked, held, x, w');
      BigActiveSet(x, w');
      GrownRow(x, more);
      ResizeHeld(x, size, w');
      Whole();
    }

    lemma HeldPlaced(x: Pid)
      requires CacheOk() && x in held
      ensures IsPage(x) && (x.c == BIG ==> x.i !in cached)
    {
      HeldFact(x);
    }

    lemma GrownRow(x: Pid, more: seq<byte>)
      requires CacheOk() && x in held && IsPage(x) && |held[x].data| + |more| <= PageSize(x.c)
      requires more == Slice(Pool(x.c), x.i, |held[x].data|, |more|)
      ensures RowHas(Pool(x.c), x.i, held[x].data + more)
    {
      hide ListsOk, CachedOk, HeldOk, CountsOk, LayerOk;
      var d := held[x].data;
      assert RowHas(Pool(x.c), x.i, d);
      forall j | 0 <= j < |d + more|
        ensures Pool(x.c)[x.i, j] == (d + more)[j]
      {
        if j >= |d| {
          assert Pool(x.c)[x.i, |d| + (j - |d|)] == more[j - |d|];
        }
      }
    }

    lemma GrownLayer(x: Pid, size: nat, more: seq<byte>)
      requires LayerOk(held, base, mem) && x in held && |held[x].data| + |more| == size && held[x].start + size <= |base|
      requires forall y :: y in held && y != x ==> Misses(held[y], held[x].start, size)
      requires forall j :: 0 <= j < |more| ==> more[j] == base[held[x].start + |held[x].data| + j]
      ensures LayerOk(held[x := held[x].(data := held[x].data + more)], base, mem)
    {
      var w, w' := held[x], held[x].(data := held[x].data + more);
      assert Agrees(w, mem);
      forall k | 0 <= k < |w'.data| && w'.start + k < |mem|
        ensures w'.data[k] == mem[w'.start + k]
      {
        if k >= |w.data| {
          assert w'.data[k] == more[k - |w.data|];
          forall y | y in held
            ensures !held[y].Covers(w.start + k)
          {
          }
          SeenThrough(held, base, mem, w.start + k);
        }
      }
      Replace(held, base, mem, x, w');
    }

    lemma ShrunkLayer(x: Pid, size: nat, was: seq<byte>)
      requires LayerOk(held, was, mem) && x in held && size < |held[x].data|
      requires Stored(was, held[x].start + size, held[x].data[size..], base)
      ensures LayerOk(held[x := held[x].(data := held[x].data[..size])], base, mem)
    {
      var w := held[x];
      var w' := w.(data := w.data[..size]);
      SavedSame(x, size, was);
      ChangeBelow(held, was, mem, base);
      hide Stored;
      forall j | j in held && j != x
        ensures Apart(w', held[j])
      {
        assert Apart(w, held[j]);
      }
      assert Agrees(w, mem);
      Replace(held, base, mem, x, w');
    }

    lemma SavedSame(x: Pid, size: nat, was: seq<byte>)
      requires LayerOk(held, was, mem) && x in held && size < |held[x].data|
      requires Stored(was, held[x].start + size, held[x].data[size..], base)
      ensures |base| == |was| && forall a :: 0 <= a < |was| ==>
        if held[x].start + size <= a < held[x].start + |held[x].data| then base[a] == mem[a] else base[a] == was[a]
    {
      hide Disjoint;
      var w := held[x];
      assert Agrees(w, mem);
      forall a | 0 <= a < |was| && w.start + size <= a < w.start + |w.data|
        ensures base[a] == mem[a]
      {
        assert w.data[size..][a - (w.start + size)] == w.data[a - w.start];
      }
    }

    /** Sets how much of its buffer a held page uses. */
    method ResizeHeld(x: Pid, size: nat, ghost w: Window)
      requires CacheOk() && x in held && w.start == held[x].start && w.dirty == held[x].dirty
      requires 1 <= |w.data| == size && w.start + size <= store.Length && RowHas(Pool(x.c), x.i, w.data)
      modifies this`info, this`held, this`counts
      ensures CacheOk() && held == old(held)[x := w] && counts == old(counts)
    {
      hide ListsOk, CachedOk, HeldOk, CountsOk, LayerOk, Buffers, RowHas, Slice;
      HeldFact(x);
      SetHeld(x, info.Page(x).(size := size), w);
      assert counts == old(counts);
    }

    ghost predicate ScanOk(s: DataScan, ptr: nat, hs: map<Pid, Window>, cs: map<Pid, nat>) {
      && s.pinfo < 3 && 1 <= s.size <= PageSize(s.pinfo)
      && Clear(ptr, s.size, hs, cs)
      && (s.pageindex != -1 ==>
            var x := Pid(s.pinfo, s.pageindex); x in hs && x in cs && hs[x].start == ptr && |hs[x].data| <= s.size)
      && (s.pageindex == -1 && s.oldlock != -1 ==>
            Unused(Pid(s.pinfo, s.oldlock), hs, cs) && Misses(hs[Pid(s.pinfo, s.oldlock)], ptr, s.size))
      && (s.seclock != -1 ==>
            && s.secpinfo < 3 && s.size <= PageSize(s.secpinfo)
            && Unused(Pid(s.secpinfo, s.seclock), hs, cs) && Misses(hs[Pid(s.secpinfo, s.seclock)], ptr, s.size))
    }

    /** An unused page met on the way is remembered, if it is of the class looked for or larger. */
    ghost predicate SeenUsed(x: Pid, s: DataScan, cs: map<Pid, nat>) {
      s.pageindex == -1 && s.pinfo < 3 && x.c < 3 && x in cs && cs[x] == 0 ==>
        && (x.c == s.pinfo ==> s.oldlock != -1)
        && (PageSize(x.c) > PageSize(s.pinfo) ==> s.oldlock != -1 || s.seclock != -1)
    }

    /** How a step of the search changes the class, the size and the page: an unused page that is
        taken is of the class looked for, and one to fall back on is of a larger class. */
    ghost predicate Keeps(s: DataScan, s': DataScan, cs: map<Pid, nat>) {
      && s'.size <= s.size
      && (s'.pageindex == -1 ==>
            && s.pageindex == -1 && s'.pinfo == s.pinfo && (s'.shrunk <==> s.shrunk || s'.size < s.size)
            && (s'.seclock == -1 || (s'.seclock == s.seclock && s'.secpinfo == s.secpinfo) || PageSize(s.pinfo) < PageSize(s'.secpinfo)))
      && (s'.pageindex != -1 ==>
            if s.pageindex != -1 then s'.pinfo == s.pinfo && s'.pageindex == s.pageindex
            else s'.pinfo == s.pinfo || (Pid(s'.pinfo, s'.pageindex) in cs && cs[Pid(s'.pinfo, s'.pageindex)] > 0))
    }

    lemma KeepsSelf(s: DataScan, cs: map<Pid, nat>)
      ensures Keeps(s, s, cs)
    {
    }

    lemma KeepsThrough(s: DataScan, mid: DataScan, s': DataScan, cs: map<Pid, nat>)
      requires Keeps(s, mid, cs) && Keeps(mid, s', cs)
      ensures Keeps(s, s', cs)
    {
    }

    lemma PastLockedKeeps(s: DataScan, ptr: nat, pg: LockPage, cs: map<Pid, nat>)
      ensures Keeps(s, PastLocked(s, ptr, pg), cs)
    {
    }

    lemma PastUnusedKeeps(s: DataScan, c: nat, i: int, cs: map<Pid, nat>)
      requires c < 3 && s.pinfo < 3
      ensures Keeps(s, PastUnused(s, c, i), cs)
    {
    }

    lemma PastFoundKeeps(s: DataScan, c: nat, i: int, cs: map<Pid, nat>)
      requires c < 3 && s.pinfo < 3 && i >= 0 && (s.pageindex != -1 ==> s.pinfo == c && s.pageindex == i)
      requires s.pinfo != c ==> Pid(c, i) in cs && cs[Pid(c, i)] > 0
      ensures Keeps(s, PastFound(s, c, i), cs)
    {
    }

    /** What a step of the search keeps in mind. */
    ghost predicate Remembers(s: DataScan, s': DataScan) {
      s'.pageindex == -1 ==>
        && s.pageindex == -1 && s'.pinfo == s.pinfo && (s.oldlock != -1 ==> s'.oldlock != -1)
        && (s.seclock != -1 ==> s'.seclock != -1)
    }

    lemma UsedStill(s: DataScan, s': DataScan, cs: map<Pid, nat>)
      requires Remembers(s, s')
      ensures forall x :: SeenUsed(x, s, cs) ==> SeenUsed(x, s', cs)
    {
    }

    lemma UsedHere(s: DataScan, s': DataScan, ptr: nat, pg: LockPage, x: Pid)
      requires x.c < 3 && x.i >= 0 && x in counts && counts[x] == pg.locks
      requires if pg.start == ptr then s'.pageindex != -1 else if pg.locks > 0 then s' == PastLocked(s, ptr, pg) else s' == PastUnused(s, x.c, x.i)
      ensures SeenUsed(x, s', counts) && Remembers(s, s')
    {
    }

    /** The page found is locked already, and as large as its class has them. */
    ghost predicate FoundFull(s: DataScan, ptr: nat, hs: map<Pid, Window>, cs: map<Pid, nat>) {
      && s.pageindex != -1 && s.pinfo < 3 && s.size == PageSize(s.pinfo)
      && var x := Pid(s.pinfo, s.pageindex); x in hs && hs[x].start == ptr && x in cs && cs[x] > 0
    }

    /** Why the search settles for less than was asked for: another lock starts there, or the
        page already locked has no room for more. */
    ghost predicate DataCut(s: DataScan, ptr: nat, asked: nat, hs: map<Pid, Window>, cs: map<Pid, nat>) {
      CutAtLock(ptr, s.size, asked, hs, cs) || FoundFull(s, ptr, hs, cs)
    }

    /** What one step of the search does to the size. */
    ghost predicate StepCut(s: DataScan, s': DataScan, ptr: nat, hs: map<Pid, Window>, cs: map<Pid, nat>) {
      || (s'.size == s.size && (s.pageindex != -1 ==> s'.pinfo == s.pinfo && s'.pageindex == s.pageindex))
      || (exists y :: y in hs && y in cs && cs[y] > 0 && hs[y].start == ptr + s'.size)
      || FoundFull(s', ptr, hs, cs)
    }

    lemma DataCutStep(s: DataScan, s': DataScan, ptr: nat, asked: nat, before: map<Pid, Window>, after: map<Pid, Window>, cs: map<Pid, nat>)
      requires DataCut(s, ptr, asked, before, cs) && OnlyUnusedChanged(before, after, cs) && StepCut(s, s', ptr, after, cs)
      ensures DataCut(s', ptr, asked, after, cs)
    {
      if s'.size == s.size && CutAtLock(ptr, s.size, asked, before, cs) && s.size != asked {
        var y :| y in before && y in cs && cs[y] > 0 && before[y].start == ptr + s.size;
        assert y in after;
      }
    }

    lemma SameSizeStep(s: DataScan, s': DataScan, ptr: nat)
      requires s'.size == s.size && s'.pinfo == s.pinfo && s'.pageindex == s.pageindex
      ensures StepCut(s, s', ptr, held, counts)
    {
    }

    lemma LockedStep0(s: DataScan, ptr: nat, pg: LockPage, x: Pid)
      requires x in held && x in counts && counts[x] > 0 && pg.start == held[x].start
      ensures StepCut(s, PastLocked(s, ptr, pg), ptr, held, counts)
    {
    }

    lemma FoundStep(s: DataScan, ptr: nat, x: Pid)
      requires x.c < 3 && x.i >= 0 && x in held && held[x].start == ptr && x in counts && (s.pinfo != x.c ==> counts[x] > 0)
      requires s.pageindex != -1 ==> x == Pid(s.pinfo, s.pageindex)
      ensures StepCut(s, PastFound(s, x.c, x.i), ptr, held, counts)
    {
    }

    /** Letting go of an unused page that is in the way costs the search nothing. */
    lemma ScanStill(s: DataScan, ptr: nat, before: map<Pid, Window>, y: Pid)
      requires ScanOk(s, ptr, before, counts)
      requires y in before && !Misses(before[y], ptr, s.size) && held == before - {y}
      requires s.pageindex != -1 ==> y != Pid(s.pinfo, s.pageindex)
      ensures ScanOk(s, ptr, held, counts)
    {
    }

    /** A smaller size suits all that has been found, if it suits the locks in place. */
    lemma ScanSmaller(s: DataScan, ptr: nat, size: nat)
      requires ScanOk(s, ptr, held, counts)
      requires 1 <= size <= s.size && Clear(ptr, size, held, counts)
      requires s.pageindex != -1 ==> |held[Pid(s.pinfo, s.pageindex)].data| <= size
      ensures ScanOk(s.(size := size), ptr, held, counts)
    {
    }

    lemma ClearBefore(x: Pid, y: Pid, ptr: nat)
      requires LayerOk(held, base, mem) && x in held && y in held && held[y].start == ptr < held[x].start && x != y
      requires 1 <= |held[x].data|
      ensures |held[y].data| <= held[x].start - ptr
    {
      assert Apart(held[x], held[y]);
    }

    /** A locked page that starts further on cuts the size short. */
    function PastLocked(s: DataScan, ptr: nat, pg: LockPage): DataScan {
      if ptr < pg.start && ptr + s.size > pg.start then s.(size := pg.start - ptr, shrunk := true) else s
    }

    lemma PastLockedOk(s: DataScan, ptr: nat, pg: LockPage, x: Pid)
      requires LayerOk(held, base, mem) && ScanOk(s, ptr, held, counts)
      requires x in held && x in counts && counts[x] > 0 && pg.start == held[x].start != ptr && 1 <= |held[x].data|
      ensures var s' := PastLocked(s, ptr, pg);
              ScanOk(s', ptr, held, counts) && s'.size <= s.size && s'.pageindex == s.pageindex && Seen(held[x], s', ptr)
    {
      assert !held[x].Covers(ptr);
      if ptr < pg.start && ptr + s.size > pg.start {
        forall y | y in held && y in counts && held[y].start == ptr
          ensures |held[y].data| <= pg.start - ptr
        {
          ClearBefore(x, y, ptr);
        }
        ScanSmaller(s, ptr, pg.start - ptr);
      }
    }

    /** An unused page out of the way is remembered, if it is the first that would do. */
    function PastUnused(s: DataScan, c: nat, i: int): DataScan {
      if s.oldlock != -1 then s
      else if s.pinfo == c then s.(oldlock := i)
      else if s.seclock == -1 && PageSize(s.pinfo) < PageSize(c) then s.(seclock := i, secpinfo := c)
      else s
    }

    lemma PastUnusedOk(s: DataScan, ptr: nat, x: Pid)
      requires ScanOk(s, ptr, held, counts) && x.c < 3
      requires Unused(x, held, counts) && Misses(held[x], ptr, s.size)
      ensures var s' := PastUnused(s, x.c, x.i);
              ScanOk(s', ptr, held, counts) && s'.size == s.size && s'.pageindex == s.pageindex && Seen(held[x], s', ptr)
    {
    }

    /** A page that starts at `ptr` and is large enough, or can grow, is the one to lock. */
    function PastFound(s: DataScan, c: nat, i: int): DataScan {
      s.(size := if s.pinfo != c && PageSize(c) < PageSize(s.pinfo) then Min(s.size, PageSize(c)) else s.size,
         pinfo := c, pageindex := i)
    }

    lemma PastFoundOk(s: DataScan, ptr: nat, x: Pid)
      requires LayerOk(held, base, mem) && ScanOk(s, ptr, held, counts)
      requires s.pageindex != -1 ==> x == Pid(s.pinfo, s.pageindex)
      requires x in held && x.c < 3 && x.i >= 0 && x in counts && held[x].start == ptr
      requires 1 <= |held[x].data| <= PageSize(x.c)
      requires |held[x].data| <= s.size
      ensures var s' := PastFound(s, x.c, x.i);
              ScanOk(s', ptr, held, counts) && s'.size <= s.size && Seen(held[x], s', ptr)
    {
      forall y | y in held && held[y].Covers(ptr)
        ensures y == x
      {
        ApartUnlessSame(held, x, y);
      }
    }

    lemma SeenStill(s: DataScan, s': DataScan, ptr: nat)
      requires s'.size <= s.size && (s.pageindex != -1 ==> s'.pageindex != -1)
      ensures forall w: Window :: Seen(w, s, ptr) ==> Seen(w, s', ptr)
    {
    }

    lemma Unchanged()
      requires Valid()
      ensures OnlyUnusedChanged(held, held, counts) && NoNewWindows(cached, cached)
    {
      forall x | x in held
        ensures x in counts
      {
        HeldFact(x);
      }
    }

    lemma ScanFacts(s: DataScan, ptr: nat, x: Pid)
      requires Valid() && ScanOk(s, ptr, held, counts) && x in held
      ensures HeldFacts(x) && 1 <= s.size && |mem| == store.Length && x in counts && 1 <= |held[x].data| && x.i >= 0
      ensures held[x].start == ptr && counts[x] > 0 ==> |held[x].data| <= s.size
      ensures held[x].start == ptr && s.pageindex != -1 ==> x == Pid(s.pinfo, s.pageindex)
      ensures s.pageindex != -1 ==> var y := Pid(s.pinfo, s.pageindex); y in held && held[y].start == ptr
      ensures counts[x] > 0 && held[x].Covers(ptr) ==> held[x].start == ptr
    {
      HeldFact(x);
      if held[x].start == ptr && s.pageindex != -1 {
        var y := Pid(s.pinfo, s.pageindex);
        HeldFact(y);
        ApartUnlessSame(held, x, y);
      }
    }

    lemma PinfoIs(s: DataScan, ptr: nat)
      requires ScanOk(s, ptr, held, counts)
      ensures s.pinfo < 3
    {
    }

    /** Lets go of an unused page that is in the way of the search. */
    method FreeInScan(c: nat, i: int, ptr: nat, s: DataScan, ghost n: nat) returns (i': int)
      requires Valid() && c < 3 && ScanOk(s, ptr, held, counts)
      requires n < |locked.Of(c)| && locked.Of(c)[n] == i && Pid(c, i) in held
      requires Pid(c, i) in counts && counts[Pid(c, i)] == 0 && !Misses(held[Pid(c, i)], ptr, s.size)
      requires s.pageindex != -1 ==> Pid(c, i) != Pid(s.pinfo, s.pageindex)
      modifies this`info, this`nextPageToSwap, this`free, this`locked, this`cached, this`held, this`base, store, bigPool
      ensures Valid() && ScanOk(s, ptr, held, counts)
      ensures OnlyUnusedChanged(old(held), held, counts)
      ensures NoNewWindows(old(cached), cached)
      ensures held == old(held) - {Pid(c, i)} && |locked.Of(c)| == |old(locked.Of(c))| - 1 && i' == At(locked.Of(c), n)
      ensures forall j :: 0 <= j < n ==> locked.Of(c)[j] == old(locked.Of(c))[j]
      ensures FreeStay(old(free), free)
    {
      hide Valid, ScanOk, OnlyUnusedChanged, NoNewWindows, HeldFacts, FreeStay;
      LockWalk(c, n);
      i' := FreeUnused(c, i, n);
      ScanStill(s, ptr, old(held), Pid(c, i));
      LetGo(old(held), Pid(c, i));
    }

    /** What the search does with the page at `ptr`, if it is one to lock. */
    method FoundInScan(c: nat, i: int, ptr: nat, s: DataScan) returns (done: bool, s': DataScan)
      requires Valid() && c < 3 && ScanOk(s, ptr, held, counts)
      requires Pid(c, i) in held && held[Pid(c, i)].start == ptr && Pid(c, i) in counts
      requires s.pinfo != c ==> counts[Pid(c, i)] > 0
      modifies this`info, this`cached, this`held, this`counts, this`base, store, bigPool
      ensures Valid() && counts == old(counts)
      ensures ScanOk(s', ptr, held, counts) && 1 <= s'.size <= s.size && s'.pageindex != -1 && StepCut(s, s', ptr, held, counts)
      ensures OnlyUnusedChanged(old(held), held, counts)
      ensures NoNewWindows(old(cached), cached)
      ensures Pid(c, i) in held && held == old(held)[Pid(c, i) := held[Pid(c, i)]] && Seen(held[Pid(c, i)], s', ptr)
      ensures done ==> Pid(s'.pinfo, s'.pageindex) in held && |held[Pid(s'.pinfo, s'.pageindex)].data| == s'.size
      ensures Keeps(s, s', counts)
    {
      hide Valid, ScanOk, StepCut, Keeps, OnlyUnusedChanged, NoNewWindows, Seen, HeldFacts, CacheOk, LayerOk, AllHeld, BigActive;
      Parts();
      Unchanged();
      var x := Pid(c, i);
      ScanFacts(s, ptr, x);
      StartOf(x);
      var pg := info.Page(x);
      if s.pinfo == c && pg.size > s.size {
        ShrinkUnused(x, s.size);
        ScanShrunk(s, ptr, old(held), x);
        StartOf(x);
        ScanFacts(s, ptr, x);
        Parts();
      }
      Sizes(x);
      PastFoundOk(s, ptr, x);
      FoundStep(s, ptr, x);
      PinfoIs(s, ptr);
      PastFoundKeeps(s, c, i, counts);
      s' := PastFound(s, c, i);
      done := info.Page(x).size == s'.size;
    }

    /** What the search does with one page. */
    method DataScanPage(c: nat, i: int, ptr: nat, s: DataScan, ghost n: nat) returns (step: Step, s': DataScan, i': int)
      requires Valid() && c < 3 && ScanOk(s, ptr, held, counts)
      requires n < |locked.Of(c)| && locked.Of(c)[n] == i && Pid(c, i) in held
      modifies this`info, this`nextPageToSwap, this`free, this`locked, this`cached, this`held, this`counts, this`base, store, bigPool
      ensures Valid() && counts == old(counts)
      ensures ScanOk(s', ptr, held, counts) && 1 <= s'.size <= s.size && (s.pageindex != -1 ==> s'.pageindex != -1)
      ensures OnlyUnusedChanged(old(held), held, counts) && StepCut(s, s', ptr, held, counts)
      ensures NoNewWindows(old(cached), cached)
      ensures Remembers(s, s') && (!step.Freed? ==> SeenUsed(Pid(c, i), s', counts))
      ensures Keeps(s, s', counts) && FreeStay(old(free), free)
      ensures step.Freed? ==> held == old(held) - {Pid(c, i)} && |locked.Of(c)| == |old(locked.Of(c))| - 1 && i' == At(locked.Of(c), n)
      ensures step.Freed? ==> forall j :: 0 <= j < n ==> locked.Of(c)[j] == old(locked.Of(c))[j]
      ensures !step.Freed? ==> Pid(c, i) in held && held == old(held)[Pid(c, i) := held[Pid(c, i)]] && Seen(held[Pid(c, i)], s', ptr)
      ensures !step.Freed? ==> locked == old(locked) && i' == At(locked.Of(c), n + 1)
      ensures step.Done? ==> s'.pageindex != -1 && Pid(s'.pinfo, s'.pageindex) in held && |held[Pid(s'.pinfo, s'.pageindex)].data| == s'.size
    {
      hide Valid, ScanOk, StepCut, SeenUsed, Remembers, Keeps, FreeStay, OnlyUnusedChanged, NoNewWindows, Seen, PastLocked, PastUnused, HeldFacts, LayerOk, CacheOk, AllHeld;
      Parts();
      Unchanged();
      FreeStaySelf(free);
      KeepsSelf(s, counts);
      PinfoIs(s, ptr);
      var x := Pid(c, i);
      LockWalk(c, n);
      LockedHas(c, n);
      ScanFacts(s, ptr, x);
      StartOf(x);
      var pg := info.Of(c).pages[i];
      step, s', i' := Next, s, pg.next;
      var endoverlaps := ptr < pg.start && ptr + s.size > pg.start;
      var beginoverlaps := ptr > pg.start && ptr < pg.start + pg.size;
      if pg.locks == 0 && (if pg.start == ptr then s.pinfo != c else endoverlaps || beginoverlaps) {
        i' := FreeInScan(c, i, ptr, s, n);
        step := Freed;
        SameSizeStep(s, s, ptr);
        RemembersSelf(s);
      } else if pg.start == ptr {
        var done;
        done, s' := FoundInScan(c, i, ptr, s);
        step := if done then Done else Next;
        UsedHere(s, s', ptr, pg, x);
      } else if pg.locks > 0 {
        PastLockedOk(s, ptr, pg, x);
        LockedStep0(s, ptr, pg, x);
        PastLockedKeeps(s, ptr, pg, counts);
        s' := PastLocked(s, ptr, pg);
        UsedHere(s, s', ptr, pg, x);
      } else {
        PastUnusedOk(s, ptr, x);
        PastUnusedSame(s, c, i);
        PastUnusedKeeps(s, c, i, counts);
        s' := PastUnused(s, c, i);
        SameSizeStep(s, s', ptr);
        UsedHere(s, s', ptr, pg, x);
      }
    }

    lemma RemembersSelf(s: DataScan)
      ensures Remembers(s, s)
    {
    }

    lemma PastUnusedSame(s: DataScan, c: nat, i: int)
      ensures var s' := PastUnused(s, c, i); s'.size == s.size && s'.pinfo == s.pinfo && s'.pageindex == s.pageindex
    {
    }

    lemma ScanShrunk(s: DataScan, ptr: nat, before: map<Pid, Window>, x: Pid)
      requires Valid() && ScanOk(s, ptr, before, counts)
      requires x in before && x in counts && counts[x] == 0 && before[x].start == ptr && s.size < |before[x].data|
      requires held == before[x := before[x].(data := before[x].data[..s.size])]
      ensures ScanOk(s, ptr, held, counts)
      ensures OnlyUnusedChanged(before, held, counts)
    {
      hide Valid, ScanOk;
      HeldCounted();
      ScanShortened(s, ptr, before, x, held);
    }

    lemma ScanShortened(s: DataScan, ptr: nat, before: map<Pid, Window>, x: Pid, after: map<Pid, Window>)
      requires ScanOk(s, ptr, before, counts)
      requires x in before && x in counts && counts[x] == 0 && before[x].start == ptr && s.size < |before[x].data|
      requires after == before[x := before[x].(data := before[x].data[..s.size])]
      ensures ScanOk(s, ptr, after, counts)
    {
      var w := before[x].(data := before[x].data[..s.size]);
      assert |w.data| == s.size;
    }

    lemma LetGo(before: map<Pid, Window>, x: Pid)
      requires Valid() && held == before - {x} && x in counts && counts[x] == 0
      ensures OnlyUnusedChanged(before, held, counts)
    {
      forall y | y in held
        ensures y in counts
      {
        HeldFact(y);
      }
    }

    /** The search through one class.  It is done early once the page at `ptr` has the
        right size. */
    method DataScanClass(c: nat, ptr: nat, s0: DataScan, ghost asked: nat) returns (s: DataScan, done: bool)
      requires Valid() && c < 3 && ScanOk(s0, ptr, held, counts) && 1 <= s0.size && DataCut(s0, ptr, asked, held, counts)
      requires forall x :: x in held && x.c < c ==> Seen(held[x], s0, ptr)
      requires forall x :: x in held && x.c < c ==> SeenUsed(x, s0, counts)
      modifies this`info, this`nextPageToSwap, this`free, this`locked, this`cached, this`held, this`counts, this`base, store, bigPool
      ensures Valid() && counts == old(counts)
      ensures ScanOk(s, ptr, held, counts) && 1 <= s.size <= s0.size && DataCut(s, ptr, asked, held, counts)
      ensures OnlyUnusedChanged(old(held), held, counts)
      ensures NoNewWindows(old(cached), cached)
      ensures done ==> s.pageindex != -1 && Pid(s.pinfo, s.pageindex) in held && |held[Pid(s.pinfo, s.pageindex)].data| == s.size
      ensures !done ==> forall x :: x in held && x.c <= c ==> Seen(held[x], s, ptr) && SeenUsed(x, s, counts)
      ensures Remembers(s0, s) && Keeps(s0, s, counts) && FreeStay(old(free), free)
    {
      hide Valid, HeldFacts, ScanOk, DataCut, StepCut, SeenUsed, Remembers, Keeps, FreeStay, OnlyUnusedChanged, NoNewWindows, Seen, PastLocked, PastUnused, PastFound, Misses;
      Unchanged();
      RemembersSelf(s0);
      KeepsSelf(s0, counts);
      FreeStaySelf(free);
      s, done := s0, false;
      ghost var n := 0;
      LockWalk(c, 0);
      var i := info.Of(c).lockedIndex;
      while i != -1
        invariant Valid() && counts == old(counts)
        invariant n <= |locked.Of(c)| && i == At(locked.Of(c), n)
        invariant ScanOk(s, ptr, held, counts) && 1 <= s.size <= s0.size && DataCut(s, ptr, asked, held, counts)
        invariant OnlyUnusedChanged(old(held), held, counts)
        invariant NoNewWindows(old(cached), cached)
        invariant forall x :: x in held && x.c < c ==> Seen(held[x], s, ptr) && SeenUsed(x, s, counts)
        invariant Remembers(s0, s) && Keeps(s0, s, counts) && FreeStay(old(free), free)
        invariant forall m :: 0 <= m < n ==> Pid(c, locked.Of(c)[m]) in held && Seen(held[Pid(c, locked.Of(c)[m])], s, ptr) && SeenUsed(Pid(c, locked.Of(c)[m]), s, counts)
        decreases |locked.Of(c)| - n
      {
        LockWalk(c, n);
        LockedHas(c, n);
        var step, s';
        ListedOnce(c, n);
        ghost var h, w, f := held, cached, free;
        step, s', i := DataScanPage(c, i, ptr, s, n);
        FreeStayThrough(old(free), f, free);
        KeepsThrough(s0, s, s', counts);
        SeenStill(s, s', ptr);
        UsedStill(s, s', counts);
        RemembersThrough(s0, s, s');
        DataCutStep(s, s', ptr, asked, h, held, counts);
        OnlyUnused(old(held), h, held, counts);
        NoneNew(old(cached), w, cached);
        s := s';
        if step.Done? {
          return s, true;
        }
        if step.Next? {
          n := n + 1;
        }
      }
      LockWalk(c, n);
      LockedHas(c, n);
      Listed(c);
    }

    lemma RemembersThrough(s: DataScan, mid: DataScan, s': DataScan)
      requires Remembers(s, mid) && Remembers(mid, s')
      ensures Remembers(s, s')
    {
    }

    /** The first page of a locked list that no lock is on, or -1. */
    method FindUnusedLockedPage(c: nat) returns (index: int)
      requires Valid() && c < 3
      ensures index != -1 ==> Unused(Pid(c, index), held, counts)
      ensures index == -1 ==> forall x :: x in held && x.c == c ==> x in counts && counts[x] > 0
    {
      hide Valid, HeldFacts;
      ghost var n := 0;
      LockWalk(c, 0);
      index := info.Of(c).lockedIndex;
      while index != -1
        invariant n <= |locked.Of(c)| && index == At(locked.Of(c), n)
        invariant UnusedIn(locked.Of(c), counts, c, n, -1)
        decreases |locked.Of(c)| - n
      {
        LockWalk(c, n);
        LockedHas(c, n);
        PageIs(Pid(c, index), info.Of(c).pages[index]);
        if info.Of(c).pages[index].locks == 0 {
          return;
        }
        index := info.Of(c).pages[index].next;
        n := n + 1;
      }
      LockWalk(c, n);
      LockedHas(c, n);
      Listed(c);
    }

    /** A lock that was cut short moves to a class it still fits, if a page is to be had
        there, so as not to use up a big page.  (A page at `ptr` that is big is locked, so
        there is none to let go of.) */
    method MoveToSmaller(s: DataScan, ptr: nat) returns (s': DataScan)
      requires Valid() && ScanOk(s, ptr, held, counts)
      requires forall x :: x in held ==> Seen(held[x], s, ptr)
      requires s.pageindex == -1 && s.pinfo == BIG && s.size <= PageSize(MEDIUM)
      ensures ScanOk(s', ptr, held, counts) && s'.size == s.size && s'.pageindex == -1
      ensures forall x :: x in held ==> Seen(held[x], s', ptr)
      ensures s'.pinfo == BIG ==> s' == s
      ensures forall d: nat :: d < s'.pinfo && s.size <= PageSize(d) ==> Taken(d, counts)
      ensures s'.seclock == s.seclock && s'.secpinfo == s.secpinfo
      ensures s'.pinfo != BIG ==> s'.oldlock != -1 || (info.Of(s'.pinfo).freeIndex != -1 && free.Of(s'.pinfo) != [])
    {
      hide Valid, CacheOk, LayerOk, AllHeld, BigActive, ScanOk, Seen, Taken;
      NoUnusedBig(s, ptr);
      s' := s;
      if s.size <= PageSize(SMALL) {
        var spare, index := FindSpare(SMALL);
        if spare {
          s' := s.(pinfo := SMALL, oldlock := index);
          ScanMoved(s, ptr, SMALL, index);
        }
      }
      if s'.pinfo == BIG {
        var spare, index := FindSpare(MEDIUM);
        if spare {
          s' := s.(pinfo := MEDIUM, oldlock := index);
          ScanMoved(s, ptr, MEDIUM, index);
        }
      }
      SeenStill(s, s', ptr);
    }

    /** Whether a class has a page to use: one on the free list, or else one that is not locked. */
    method FindSpare(c: nat) returns (spare: bool, index: int)
      requires Valid() && c < 3
      ensures spare ==> if index == -1 then info.Of(c).freeIndex != -1 && free.Of(c) != [] else Unused(Pid(c, index), held, counts)
      ensures !spare ==> Taken(c, counts)
    {
      hide Valid;
      spare, index := true, -1;
      FirstOfFree(c);
      if info.Of(c).freeIndex == -1 {
        index := FindUnusedLockedPage(c);
        if index == -1 {
          ClassTaken(c);
          spare := false;
        }
      }
    }

    lemma NoUnusedBig(s: DataScan, ptr: nat)
      requires Valid() && ScanOk(s, ptr, held, counts) && s.pinfo == BIG && s.pageindex == -1
      ensures s.oldlock == -1
    {
    }

    lemma ScanMoved(s: DataScan, ptr: nat, c: nat, i: int)
      requires ScanOk(s, ptr, held, counts) && s.pageindex == -1 && c < 3 && s.size <= PageSize(c)
      requires forall x :: x in held ==> Seen(held[x], s, ptr)
      requires i != -1 ==> Unused(Pid(c, i), held, counts)
      ensures ScanOk(s.(pinfo := c, oldlock := i), ptr, held, counts)
    {
    }

    /** Readies a page for a lock at `ptr`, where none starts: a free one of the class found
        suitable or of a larger one, or else an unused one. */
    method OpenScanned(ptr: nat, s: DataScan) returns (ok: bool, x: Pid)
      requires Valid() && 1 <= ptr && ScanOk(s, ptr, held, counts) && s.pageindex == -1 && ptr + s.size <= store.Length
      requires forall y :: y in held ==> Seen(held[y], s, ptr)
      requires s.oldlock != -1 || info.Of(s.pinfo).freeIndex != -1 || forall y :: y in held ==> SeenUsed(y, s, counts)
      requires s.seclock == -1 || (s.secpinfo < 3 && PageSize(s.pinfo) < PageSize(s.secpinfo))
      modifies this`info, this`nextPageToSwap, this`free, this`locked, this`cached, this`held, this`counts, this`base
      modifies store, smallPool, mediumPool, bigPool
      ensures CacheOk() && LayerOk(held, base, mem) && AllHeld(locked, held)
      ensures counts == old(counts)
      ensures NoNewWindows(old(cached), cached)
      ensures ok ==> IsPage(x) && x in held && held[x].start == ptr && |held[x].data| == s.size && x in counts && counts[x] == 0
      ensures ok ==> OnlyUnusedLost(old(held), held - {x}, counts)
      ensures ok && x.c == BIG ==> forall j :: j in cached ==> Far(cached[j].start, ptr)
      ensures ok ==> OpenedIn(x.c, s, old(free), counts)
      ensures !ok ==> held == old(held) && NoneFor(s.pinfo)
      ensures s.oldlock != -1 || old(info.Of(s.pinfo).freeIndex) != -1 ==> ok
    {
      hide Valid, CacheOk, LayerOk, AllHeld, BigActive, ScanOk, Seen, SeenUsed, NoneIn, Taken, OnlyUnusedLost, NoNewWindows;
      Parts();
      NoneSeenAt(s, ptr);
      ok := true;
      var pinfo, oldlock := s.pinfo, s.oldlock;
      ScanSizes(s, ptr);
      FirstOfFree(s.pinfo);
      FirstOfFree(MEDIUM);
      FirstOfFree(BIG);
      if info.Of(pinfo).freeIndex == -1 && oldlock == -1 {
        PinfoTaken(s);
        if PageSize(pinfo) < PageSize(MEDIUM) && info.medium.freeIndex != -1 {
          pinfo := MEDIUM;
        } else if PageSize(pinfo) < PageSize(BIG) && info.big.freeIndex != -1 {
          pinfo := BIG;
        }
      }
      if info.Of(pinfo).freeIndex != -1 {
        x := OpenFree(pinfo, ptr, s.size);
      } else {
        if oldlock == -1 && s.seclock != -1 {
          pinfo, oldlock := s.secpinfo, s.seclock;
        }
        if oldlock != -1 {
          x := OpenUnused(pinfo, ptr, s.size, oldlock);
        } else {
          NothingToUse(s);
          ok, x := false, Pid(0, 0);
          Unchanged();
        }
      }
    }

    /** The class of the page readied: the one looked for if there is a page to use; else a larger
        one, medium before big if there are free pages, and only then one to fall back on. */
    ghost predicate OpenedIn(c: nat, s: DataScan, f: Lists, k: map<Pid, nat>) {
      s.size <= PageSize(c) && s.pinfo < 3 &&
      if s.oldlock != -1 || f.Of(s.pinfo) != [] then c == s.pinfo
      else
        && Taken(s.pinfo, k) && PageSize(s.pinfo) < PageSize(c)
        && if PageSize(s.pinfo) < PageSize(MEDIUM) && f.Of(MEDIUM) != [] then c == MEDIUM
           else PageSize(s.pinfo) < PageSize(BIG) && f.Of(BIG) != [] ==> c == BIG
    }

    lemma PinfoTaken(s: DataScan)
      requires Valid() && s.pinfo < 3 && s.pageindex == -1 && s.oldlock == -1
      requires forall y :: y in held ==> SeenUsed(y, s, counts)
      requires info.Of(s.pinfo).freeIndex == -1
      ensures Taken(s.pinfo, counts)
    {
      hide Valid;
      HeldCounted();
      FirstOfFree(s.pinfo);
      ClassTaken(s.pinfo);
    }

    lemma NoneSeenAt(s: DataScan, ptr: nat)
      requires s.pageindex == -1 && forall y :: y in held ==> Seen(held[y], s, ptr)
      ensures Uncovered(held, ptr, s.size)
    {
    }

    lemma ScanSizes(s: DataScan, ptr: nat)
      requires ScanOk(s, ptr, held, counts) && s.pageindex == -1
      ensures s.pinfo < 3 && 1 <= s.size <= PageSize(s.pinfo)
      ensures s.oldlock != -1 ==> Unused(Pid(s.pinfo, s.oldlock), held, counts)
      ensures s.seclock != -1 ==> s.secpinfo < 3 && s.size <= PageSize(s.secpinfo) && Unused(Pid(s.secpinfo, s.seclock), held, counts)
    {
    }

    /** The smallest class whose pages hold `size` bytes. */
    function ClassFor(size: nat): (c: nat)
      ensures c < 3 && (size <= PageSize(BIG) ==> size <= PageSize(c)) && forall d :: 0 <= d < c ==> PageSize(d) < size
    {
      if size <= PageSize(SMALL) then SMALL else if size <= PageSize(MEDIUM) then MEDIUM else BIG
    }

    ghost predicate SmallestFor(c: nat, size: nat) {
      c < 3 && size <= PageSize(c) && forall d :: 0 <= d < c ==> PageSize(d) < size
    }

    /** All pages of class `c` are locked. */
    ghost predicate Taken(c: nat, k: map<Pid, nat>) {
      forall y :: IsPage(y) && y.c == c ==> y in k && k[y] > 0
    }

    /** All pages of the smallest class that holds `size` bytes, and all larger ones, are locked. */
    ghost predicate NoneFit(size: nat, k: map<Pid, nat>) {
      forall c: nat :: SmallestFor(c, size) ==> NoneIn(c, k)
    }

    lemma NoneFitIs(size: nat)
      requires NoneFor(ClassFor(size)) && size <= PageSize(BIG)
      ensures NoneFit(size, counts)
    {
      hide NoneIn;
      forall c: nat | SmallestFor(c, size)
        ensures c == ClassFor(size)
      {
        SmallestIs(c, size);
      }
    }

    lemma SmallestIs(c: nat, size: nat)
      requires size <= PageSize(BIG)
      ensures SmallestFor(c, size) <==> c == ClassFor(size)
    {
      if SmallestFor(c, size) {
        var d := ClassFor(size);
        assert !(d < c) && !(c < d);
      }
    }

    /** The class of a page locked anew, of which `size` bytes are granted where `asked` were
        asked for: the smallest one that holds what was asked for, unless all its pages are
        locked; then a larger one, and a medium page if one is free.  But if a big page would
        be needed and another lock leaves less, the smallest one left for that. */
    ghost predicate DataClass(c: nat, size: nat, asked: nat, k: map<Pid, nat>, mediumFree: bool) {
      size <= PageSize(c) &&
      if SmallestFor(BIG, asked) && size < asked && size <= PageSize(MEDIUM) then
        forall d: nat :: d < c && size <= PageSize(d) ==> Taken(d, k)
      else
        SmallestFor(c, asked) ||
        forall d: nat :: SmallestFor(d, asked) ==>
          Taken(d, k) && PageSize(d) < PageSize(c) && (mediumFree && PageSize(d) < PageSize(MEDIUM) ==> c == MEDIUM)
    }

    /** All pages of class `c`, and all larger ones, are locked. */
    ghost predicate NoneFor(c: nat)
      reads this`counts
    {
      NoneIn(c, counts)
    }

    ghost predicate NoneIn(c: nat, k: map<Pid, nat>) {
      forall y :: IsPage(y) && (y.c == c || PageSize(y.c) > PageSize(c)) ==> y in k && k[y] > 0
    }

    /** A search that found nothing to use has seen that all pages it could use are locked. */
    lemma NothingToUse(s: DataScan)
      requires Valid() && s.pinfo < 3 && s.pageindex == -1 && s.oldlock == -1 && s.seclock == -1
      requires forall y :: y in held ==> SeenUsed(y, s, counts)
      requires info.Of(s.pinfo).freeIndex == -1
      requires PageSize(s.pinfo) < PageSize(MEDIUM) ==> info.medium.freeIndex == -1
      requires PageSize(s.pinfo) < PageSize(BIG) ==> info.big.freeIndex == -1
      ensures NoneFor(s.pinfo)
    {
      hide Valid;
      HeldCounted();
      forall y | IsPage(y) && (y.c == s.pinfo || PageSize(y.c) > PageSize(s.pinfo))
        ensures y in counts && counts[y] > 0
      {
        SmallestClass();
        FirstOfFree(y.c);
        ClassTaken(y.c);
      }
    }

    lemma SmallestClass()
      requires Valid()
      ensures PageSize(SMALL) <= PageSize(MEDIUM) <= PageSize(BIG)
    {
      hide LayerOk, AllHeld, BigActive;
      PageOrder();
    }

    /** The search begins with the smallest class that holds `size` bytes. */
    function Begin(size: nat): DataScan {
      DataScan(ClassFor(size), size, false, -1, -1, 0, -1)
    }

    /** The whole search, smallest class first. */
    method ScanAllData(ptr: nat, size: nat) returns (s: DataScan, done: bool)
      requires Valid() && 1 <= ptr && 1 <= size <= bigPool.Length1 && ptr + size <= store.Length
      requires Clear(ptr, size, held, counts)
      modifies this`info, this`nextPageToSwap, this`free, this`locked, this`cached, this`held, this`counts, this`base, store, bigPool
      ensures Valid() && counts == old(counts)
      ensures ScanOk(s, ptr, held, counts) && 1 <= s.size <= size && DataCut(s, ptr, size, held, counts)
      ensures OnlyUnusedChanged(old(held), held, counts)
      ensures NoNewWindows(old(cached), cached)
      ensures done ==> s.pageindex != -1 && Pid(s.pinfo, s.pageindex) in held && |held[Pid(s.pinfo, s.pageindex)].data| == s.size
      ensures !done ==> forall x :: x in held ==> Seen(held[x], s, ptr) && SeenUsed(x, s, counts)
      ensures Keeps(Begin(size), s, counts) && FreeStay(old(free), free)
    {
      hide Valid, OnlyUnusedChanged, NoNewWindows, Seen, ScanOk, DataCut, SeenUsed, Keeps, FreeStay;
      Unchanged();
      FreeStaySelf(free);
      s := Begin(size);
      KeepsSelf(s, counts);
      done := false;
      ScanFresh(s, ptr, size);
      var pindex := 0;
      while pindex < 3 && !done
        invariant 0 <= pindex <= 3
        invariant Valid() && counts == old(counts)
        invariant ScanOk(s, ptr, held, counts) && 1 <= s.size <= size && DataCut(s, ptr, size, held, counts)
        invariant OnlyUnusedChanged(old(held), held, counts)
        invariant NoNewWindows(old(cached), cached)
        invariant done ==> s.pageindex != -1 && Pid(s.pinfo, s.pageindex) in held && |held[Pid(s.pinfo, s.pageindex)].data| == s.size
        invariant !done ==> forall x :: x in held && x.c < pindex ==> Seen(held[x], s, ptr) && SeenUsed(x, s, counts)
        invariant Keeps(Begin(size), s, counts) && FreeStay(old(free), free)
      {
        ghost var h, w, f, was := held, cached, free, s;
        s, done := DataScanClass(pindex, ptr, s, size);
        KeepsThrough(Begin(size), was, s, counts);
        FreeStayThrough(old(free), f, free);
        OnlyUnused(old(held), h, held, counts);
        NoneNew(old(cached), w, cached);
        pindex := pindex + 1;
      }
      Parts();
    }

    lemma ScanFresh(s: DataScan, ptr: nat, size: nat)
      requires Valid() && Clear(ptr, size, held, counts) && 1 <= size <= PageSize(BIG)
      requires s == Begin(size)
      ensures ScanOk(s, ptr, held, counts) && DataCut(s, ptr, size, held, counts)
    {
      hide Valid;
    }

    /** A lock on a page readied after a search. */
    method LockScanned(ptr: nat, s: DataScan, ro: bool) returns (ok: bool, x: Pid)
      requires Valid() && 1 <= ptr && ScanOk(s, ptr, held, counts) && s.pageindex == -1 && ptr + s.size <= store.Length
      requires forall y :: y in held ==> Seen(held[y], s, ptr)
      requires s.oldlock != -1 || info.Of(s.pinfo).freeIndex != -1 || forall y :: y in held ==> SeenUsed(y, s, counts)
      requires s.seclock == -1 || (s.secpinfo < 3 && PageSize(s.pinfo) < PageSize(s.secpinfo))
      modifies this`info, this`nextPageToSwap, this`free, this`locked, this`cached, this`held, this`counts, this`base
      modifies store, smallPool, mediumPool, bigPool
      ensures Valid()
      ensures ok ==> x in held && held[x].start == ptr && |held[x].data| == s.size && (!ro ==> held[x].dirty)
      ensures ok ==> x in old(counts) && counts == old(counts)[x := old(counts)[x] + 1]
      ensures !ok ==> counts == old(counts) && NoneFor(s.pinfo)
      ensures s.oldlock != -1 || old(info.Of(s.pinfo).freeIndex) != -1 ==> ok
      ensures ok ==> old(counts)[x] == 0 && OpenedIn(x.c, s, old(free), old(counts))
      ensures ok ==> Clearance(x)
      ensures LocksGrow(old(held), held, old(counts)) && HeldFrom(old(held), held, if ok then {x} else {})
      ensures NoNewWindows(old(cached), cached)
    {
      hide Valid, ScanOk, Seen, SeenUsed, NoneIn, OpenedIn, ClearAt, CacheOk, LayerOk, AllHeld, NoNewWindows;
      Parts();
      ghost var before := held;
      ok, x := OpenScanned(ptr, s);
      if ok {
        Lock(x, ro, before);
        ClearOfCache(x, ptr);
      } else {
        Whole();
      }
    }

    lemma ClearOfCache(x: Pid, ptr: nat)
      requires x in held && held[x].start == ptr && (x.c == BIG ==> forall j :: j in cached ==> Far(cached[j].start, ptr))
      ensures Clearance(x)
    {
    }

    /** One more lock on the page found at `ptr`, which grows to the size granted. */
    method LockFound(ptr: nat, s: DataScan, ghost done: bool, ro: bool)
      requires Valid() && 1 <= ptr && ScanOk(s, ptr, held, counts) && s.pageindex != -1 && ptr + s.size <= store.Length
      requires done ==> |held[Pid(s.pinfo, s.pageindex)].data| == s.size
      requires !done ==> forall y :: y in held ==> Seen(held[y], s, ptr)
      modifies this`info, this`held, this`counts, smallPool, mediumPool, bigPool
      ensures Valid()
      ensures var x := Pid(s.pinfo, s.pageindex);
              && x in held && held[x].start == ptr && |held[x].data| == s.size && (!ro ==> held[x].dirty)
              && x in old(counts) && counts == old(counts)[x := old(counts)[x] + 1] && (old(counts)[x] == 0 ==> Clearance(x) && x.c != BIG)
              && x in old(held) && held[x].dirty == (old(held)[x].dirty || !ro)
      ensures LocksGrow(old(held), held, old(counts)) && HeldFrom(old(held), held, {Pid(s.pinfo, s.pageindex)})
    {
      var x := Pid(s.pinfo, s.pageindex);
      hide Valid, Seen, CacheOk, LayerOk, AllHeld, BigActive, ClearAt, LocksGrow, HeldFrom, HeldFacts, ScanOk;
      FoundAt(s, ptr);
      StartOf(x);
      UnusedIsNotBig(x);
      if s.size > info.Page(x).size {
        OthersMiss(s, ptr);
        GrowHeld(x, s.size);
      }
      Parts();
      Lock(x, ro, held);
      OneGrown(old(held), held, x, old(counts));
      if x.c != BIG {
        ClearUnlessFull(x);
      }
    }

    lemma OneGrown(before: map<Pid, Window>, after: map<Pid, Window>, x: Pid, k: map<Pid, nat>)
      requires x in before && x in after && after == before[x := after[x]] && after[x].start == before[x].start
      requires before[x].data <= after[x].data && (before[x].dirty ==> after[x].dirty)
      ensures LocksGrow(before, after, k) && HeldFrom(before, after, {x})
    {
    }

    lemma UnusedIsNotBig(x: Pid)
      requires Valid() && x in held
      ensures x in counts && (counts[x] == 0 ==> x.c != BIG)
    {
      hide CacheOk, LayerOk;
      HeldCounted();
    }

    lemma OthersMiss(s: DataScan, ptr: nat)
      requires Valid() && s.pageindex != -1
      requires var x := Pid(s.pinfo, s.pageindex); x in held && held[x].start == ptr
      requires forall y :: y in held ==> Seen(held[y], s, ptr)
      ensures forall y :: y in held && y != Pid(s.pinfo, s.pageindex) ==> Misses(held[y], ptr, s.size)
    {
      var x := Pid(s.pinfo, s.pageindex);
      HeldFact(x);
      forall y | y in held && y != x
        ensures Misses(held[y], ptr, s.size)
      {
        HeldFact(y);
        assert Apart(held[x], held[y]) && Seen(held[y], s, ptr);
      }
    }

    /** Why a lock at `ptr` was given this size, if not all that was asked for: another lock
        starts where it stops, or the page already locked at `ptr` is as large as it can be. */
    ghost predicate DataFitting(x: Pid, ptr: nat, size: nat, asked: nat, h: map<Pid, Window>, k: map<Pid, nat>) {
      CutAtLock(ptr, size, asked, h, k) || (x in h && h[x].start == ptr && x in k && k[x] > 0 && size == PageSize(x.c))
    }

    lemma DataFits(s: DataScan, ptr: nat, asked: nat, h: map<Pid, Window>, mid: map<Pid, Window>, k: map<Pid, nat>)
      requires DataCut(s, ptr, asked, mid, k) && OnlyUnusedChanged(h, mid, k)
      ensures s.pageindex == -1 ==> forall x :: DataFitting(x, ptr, s.size, asked, h, k)
      ensures s.pageindex != -1 ==> DataFitting(Pid(s.pinfo, s.pageindex), ptr, s.size, asked, h, k)
    {
      if CutAtLock(ptr, s.size, asked, mid, k) && s.size != asked {
        var y :| y in mid && y in k && k[y] > 0 && mid[y].start == ptr + s.size;
        assert y in h;
      }
    }

    // --- the class of the page ---

    lemma KeptClass(s: DataScan, ptr: nat, size: nat)
      requires Valid() && ScanOk(s, ptr, held, counts) && Keeps(Begin(size), s, counts)
      ensures s.pageindex == -1 ==> s.pinfo == ClassFor(size) && (s.shrunk <==> s.size < size)
      ensures s.pageindex == -1 ==> s.seclock == -1 || (s.secpinfo < 3 && PageSize(s.pinfo) < PageSize(s.secpinfo))
      ensures s.pageindex == -1 && s.pinfo == BIG ==> s.seclock == -1
      ensures s.pageindex != -1 ==> s.pinfo == ClassFor(size) || (Pid(s.pinfo, s.pageindex) in counts && counts[Pid(s.pinfo, s.pageindex)] > 0)
    {
      hide Valid;
      SmallestClass();
    }

    lemma OpenedClass(c: nat, s0: DataScan, s: DataScan, asked: nat, before: Lists, f: Lists, k: map<Pid, nat>)
      requires Valid() && asked <= PageSize(BIG)
      requires s0.pinfo == ClassFor(asked) && (s0.shrunk <==> s0.size < asked) && s.size == s0.size
      requires if s0.shrunk && s0.size <= PageSize(MEDIUM) && s0.pinfo == BIG
               then (forall d: nat :: d < s.pinfo && s.size <= PageSize(d) ==> Taken(d, k))
                    && (s.pinfo != BIG ==> s.oldlock != -1 || f.Of(s.pinfo) != [])
               else s == s0
      requires OpenedIn(c, s, f, k) && FreeStay(before, f)
      ensures DataClass(c, s.size, asked, k, before.Of(MEDIUM) != [])
    {
      hide Valid, Taken;
      SmallestClass();
      SmallestIs(BIG, asked);
      forall d: nat
        ensures SmallestFor(d, asked) <==> d == ClassFor(asked)
      {
        SmallestIs(d, asked);
      }
    }

    lemma FoundClass(x: Pid, s: DataScan, asked: nat, size: nat, k: map<Pid, nat>, mediumFree: bool)
      requires x == Pid(s.pinfo, s.pageindex) && x in k && (k[x] == 0 ==> x.c != BIG)
      requires s.pinfo == ClassFor(asked) || k[x] > 0
      requires asked <= PageSize(BIG) && size <= PageSize(x.c)
      ensures k[x] == 0 ==> DataClass(x.c, size, asked, k, mediumFree)
    {
      hide Taken;
      SmallestIs(BIG, asked);
      SmallestIs(x.c, asked);
    }

    lemma FoundBefore(x: Pid, before: map<Pid, Window>, mid: map<Pid, Window>, k: map<Pid, nat>)
      requires OnlyUnusedChanged(before, mid, k)
      ensures x in mid ==> x in before && before[x].start == mid[x].start && before[x].dirty == mid[x].dirty
    {
    }

    /** The class in which the search ends, after it may have moved to a smaller one. */
    ghost predicate Moved(s0: DataScan, s: DataScan, f: Lists, k: map<Pid, nat>) {
      && s.size == s0.size && s.pageindex == s0.pageindex
      && if s0.shrunk && s0.size <= PageSize(MEDIUM) && s0.pinfo == BIG && s0.pageindex == -1
         then (forall d: nat :: d < s.pinfo && s.size <= PageSize(d) ==> Taken(d, k))
              && (s.pinfo != BIG ==> s.oldlock != -1 || f.Of(s.pinfo) != [])
         else s == s0
    }

    /** The search, and the move to a smaller class if the lock is cut short. */
    method FindData(ptr: nat, size: nat) returns (s: DataScan, done: bool, ghost s0: DataScan)
      requires Valid() && 1 <= ptr && 1 <= size <= bigPool.Length1 && ptr + size <= store.Length
      requires Clear(ptr, size, held, counts)
      modifies this`info, this`nextPageToSwap, this`free, this`locked, this`cached, this`held, this`counts, this`base, store, bigPool
      ensures Valid() && counts == old(counts)
      ensures ScanOk(s, ptr, held, counts) && 1 <= s.size <= size
      ensures s.pageindex == -1 ==> forall y :: DataFitting(y, ptr, s.size, size, old(held), counts)
      ensures s.pageindex != -1 ==> DataFitting(Pid(s.pinfo, s.pageindex), ptr, s.size, size, old(held), counts)
      ensures s.pageindex == -1 ==> s0.pinfo == ClassFor(size) && (s0.shrunk <==> s0.size < size)
      ensures s.pageindex == -1 ==> s.seclock == -1 || (s.secpinfo < 3 && PageSize(s.pinfo) < PageSize(s.secpinfo))
      ensures s.pageindex != -1 ==> s.pinfo == ClassFor(size) || (Pid(s.pinfo, s.pageindex) in counts && counts[Pid(s.pinfo, s.pageindex)] > 0)
      ensures Moved(s0, s, free, counts) && FreeStay(old(free), free)
      ensures done ==> s.pageindex != -1 && Pid(s.pinfo, s.pageindex) in held && |held[Pid(s.pinfo, s.pageindex)].data| == s.size
      ensures !done ==> forall y :: y in held ==> Seen(held[y], s, ptr)
      ensures s.pageindex == -1 ==> s.oldlock != -1 || info.Of(s.pinfo).freeIndex != -1 || forall y :: y in held ==> SeenUsed(y, s, counts)
      ensures OnlyUnusedChanged(old(held), held, counts) && NoNewWindows(old(cached), cached)
    {
      hide Valid, Clear, ScanOk, DataCut, DataFitting, Seen, SeenUsed, OnlyUnusedChanged, NoNewWindows, Keeps, FreeStay, Taken;
      s, done := ScanAllData(ptr, size);
      s0 := s;
      KeptClass(s, ptr, size);
      DataFits(s, ptr, size, old(held), held, counts);
      if s.shrunk && s.size <= PageSize(MEDIUM) && s.pinfo == BIG && s.pageindex == -1 {
        s := MoveToSmaller(s, ptr);
      }
    }

    /** Takes the page the search found, or one readied for the purpose. */
    method TakeData(ptr: nat, ghost s0: DataScan, s: DataScan, ghost done: bool, ro: bool, ghost asked: nat, ghost before: Lists) returns (ok: bool, x: Pid)
      requires Valid() && 1 <= ptr && asked <= PageSize(BIG) && ScanOk(s, ptr, held, counts) && ptr + s.size <= store.Length
      requires s.pageindex == -1 ==> s0.pinfo == ClassFor(asked) && (s0.shrunk <==> s0.size < asked)
      requires s.pageindex == -1 ==> s.seclock == -1 || (s.secpinfo < 3 && PageSize(s.pinfo) < PageSize(s.secpinfo))
      requires s.pageindex != -1 ==> s.pinfo == ClassFor(asked) || (Pid(s.pinfo, s.pageindex) in counts && counts[Pid(s.pinfo, s.pageindex)] > 0)
      requires Moved(s0, s, free, counts) && FreeStay(before, free)
      requires done ==> s.pageindex != -1 && Pid(s.pinfo, s.pageindex) in held && |held[Pid(s.pinfo, s.pageindex)].data| == s.size
      requires !done ==> forall y :: y in held ==> Seen(held[y], s, ptr)
      requires s.pageindex == -1 ==> s.oldlock != -1 || info.Of(s.pinfo).freeIndex != -1 || forall y :: y in held ==> SeenUsed(y, s, counts)
      modifies this`info, this`nextPageToSwap, this`free, this`locked, this`cached, this`held, this`counts, this`base
      modifies store, smallPool, mediumPool, bigPool
      ensures Valid()
      ensures ok ==> x in held && held[x].start == ptr && |held[x].data| == s.size && (!ro ==> held[x].dirty)
      ensures ok ==> x in old(counts) && counts == old(counts)[x := old(counts)[x] + 1]
      ensures ok && old(counts)[x] == 0 ==> Clearance(x) && DataClass(x.c, s.size, asked, old(counts), before.Of(MEDIUM) != [])
      ensures ok && old(counts)[x] > 0 ==> x in old(held) && old(held)[x].start == ptr && held[x].dirty == (old(held)[x].dirty || !ro)
      ensures ok && s.pageindex != -1 ==> x == Pid(s.pinfo, s.pageindex)
      ensures !ok ==> s.pageindex == -1 && counts == old(counts) && NoneFit(asked, counts)
      ensures LocksGrow(old(held), held, old(counts)) && HeldFrom(old(held), held, if ok then {x} else {})
      ensures NoNewWindows(old(cached), cached)
    {
      hide Valid, CacheOk, LayerOk, AllHeld, BigActive, ScanOk, Seen, SeenUsed, NoneIn, ClearAt, HeldFrom, NoNewWindows, LocksGrow, Slice, FreeStay, OpenedIn, DataClass, NoneFit, Taken;
      ghost var f := free;
      PinfoIs(s, ptr);
      FirstOfFree(s.pinfo);
      if s.pageindex == -1 {
        ok, x := LockScanned(ptr, s, ro);
        if ok {
          OpenedClass(x.c, s0, s, asked, before, f, old(counts));
        } else {
          NoneFitIs(asked);
        }
      } else {
        ok, x := true, Pid(s.pinfo, s.pageindex);
        FoundAt(s, ptr);
        NoneNewSelf(cached);
        LockFound(ptr, s, done, ro);
        LockShows(x, 0, |held[x].data|);
        FoundClass(x, s, asked, s.size, old(counts), before.Of(MEDIUM) != []);
      }
    }

    lemma FoundAt(s: DataScan, ptr: nat)
      requires ScanOk(s, ptr, held, counts) && s.pageindex != -1
      ensures var x := Pid(s.pinfo, s.pageindex);
              x in held && held[x].start == ptr && |held[x].data| <= s.size <= PageSize(x.c) && s.pinfo < 3
    {
    }

    lemma FitsAs(x: Pid, s: DataScan, ptr: nat, asked: nat, h: map<Pid, Window>, k: map<Pid, nat>)
      requires s.pageindex == -1 ==> forall y :: DataFitting(y, ptr, s.size, asked, h, k)
      requires s.pageindex != -1 ==> DataFitting(Pid(s.pinfo, s.pageindex), ptr, s.size, asked, h, k) && x == Pid(s.pinfo, s.pageindex)
      ensures DataFitting(x, ptr, s.size, asked, h, k)
    {
      hide DataFitting;
    }

    /** Which page a data lock is put on, how much of it, and whether that makes it dirty. */
    ghost predicate DataLock(x: Pid, ptr: nat, size: nat, asked: nat, ro: bool, mediumFree: bool, s: LockState, s': LockState) {
      && DataFitting(x, ptr, size, asked, s.held, s.counts) && x in s.counts
      && (s.counts[x] == 0 ==> DataClass(x.c, size, asked, s.counts, mediumFree))
      && (s.counts[x] > 0 ==> x in s.held && x in s'.held && s.held[x].start == ptr && s'.held[x].dirty == (s.held[x].dirty || !ro))
    }

    /** Locks up to `size` bytes from `ptr` on, in a page that starts there, cut short only
        where another locked page starts.  An unused page that is in the way is let go of;
        a page already locked at `ptr` may grow. */
    method MakeDataLock(ptr: nat, size: nat, ro: bool) returns (ok: bool, x: Pid)
      requires Valid() && 1 <= ptr && 1 <= size <= bigPool.Length1 && ptr + size <= store.Length
      requires Clear(ptr, size, held, counts)
      requires forall y :: y in held && held[y].Covers(ptr) ==> y in counts && counts[y] < 255
      modifies this`info, this`nextPageToSwap, this`free, this`locked, this`cached, this`held, this`counts, this`base
      modifies store, smallPool, mediumPool, bigPool
      ensures Valid()
      ensures ok ==> IsPage(x) && x in held && held[x].start == ptr && 1 <= |held[x].data| <= size && (!ro ==> held[x].dirty)
      ensures ok ==> |held[x].data| <= PageSize(x.c) && ptr + |held[x].data| <= |mem|
                     && Slice(Pool(x.c), x.i, 0, |held[x].data|) == mem[ptr..ptr + |held[x].data|]
      ensures ok ==> x in old(counts) && counts == old(counts)[x := old(counts)[x] + 1]
      ensures ok && old(counts)[x] == 0 ==> Clearance(x)
      ensures ok ==> DataLock(x, ptr, |held[x].data|, size, ro, old(free).Of(MEDIUM) != [], old(State()), State())
      ensures !ok ==> counts == old(counts) && NoneFit(size, counts)
      ensures LocksGrow(old(held), held, old(counts)) && HeldFrom(old(held), held, if ok then {x} else {})
      ensures NoNewWindows(old(cached), cached)
    {
      hide Valid, Clear, ScanOk, DataFitting, Seen, SeenUsed, Moved, ClearAt, HeldFrom, OnlyUnusedChanged, NoNewWindows, LocksGrow, Slice, FreeStay, DataClass, NoneFit;
      var s, done;
      ghost var s0;
      s, done, s0 := FindData(ptr, size);
      ghost var mid, windows := held, cached;
      ok, x := TakeData(ptr, s0, s, done, ro, size, old(free));
      NoneNew(old(cached), windows, cached);
      GrowThrough(old(held), mid, held, old(counts));
      HeldFromLost(old(held), mid, held, if ok then {x} else {}, old(counts));
      if ok {
        FoundBefore(x, old(held), mid, old(counts));
        FitsAs(x, s, ptr, size, old(held), old(counts));
        LockShows(x, 0, |held[x].data|);
      }
    }
  }
}
