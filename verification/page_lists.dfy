/** The page records of the allocator and the two index lists threaded through them.

    An allocator keeps its pages in three arrays, one per size class.  In each array
    every page sits on exactly one of two singly linked lists, which share the page's
    `next` field: the free list and the locked list.  */
module PageLists {

  /** One page record.  The page's buffer is row `i` of its class's pool. */
  datatype LockPage = LockPage(
    start: nat,       // first virtual address held, 0 when the page holds nothing
    size: nat,        // bytes of the buffer in use
    locks: nat,       // outstanding locks
    cleanSkips: nat,  // how often a swap passed this page over because it was dirty
    dirty: bool,      // the buffer may differ from what lies below it
    next: int         // next page on the list this page is on, -1 at the end
  )

  const NEW_PAGE := LockPage(0, 0, 0, 0, false, -1)

  /** One size class. */
  datatype PageInfo = PageInfo(pages: seq<LockPage>, freeIndex: int, lockedIndex: int)

  /** The list position after the last element reads as -1. */
  function At(list: seq<int>, k: int): int {
    if 0 <= k < |list| then list[k] else -1
  }

  /** Walking `next` from `head` visits exactly `list`, and then stops. */
  ghost predicate Threads(pages: seq<LockPage>, head: int, list: seq<int>) {
    && head == At(list, 0)
    && (forall k :: 0 <= k < |list| ==> 0 <= list[k] < |pages| && pages[list[k]].next == At(list, k + 1))
    && (forall j, k :: 0 <= j < k < |list| ==> list[j] != list[k])
  }

  /** The free and the locked list of one class partition its pages. */
  ghost predicate Partition(info: PageInfo, free: seq<int>, locked: seq<int>) {
    && Threads(info.pages, info.freeIndex, free)
    && Threads(info.pages, info.lockedIndex, locked)
    && (forall i :: i in free ==> i !in locked)
    && (forall i :: 0 <= i < |info.pages| ==> i in free || i in locked)
  }

  function Without(list: seq<int>, m: nat): (r: seq<int>)
    requires m < |list|
    ensures |r| == |list| - 1
  {
    list[..m] + list[m + 1..]
  }

  lemma WithoutAt(list: seq<int>, m: nat)
    requires m < |list|
    ensures forall j :: 0 <= j < m ==> Without(list, m)[j] == list[j]
    ensures At(Without(list, m), m) == At(list, m + 1)
  {
  }

  lemma WithoutMembers(list: seq<int>, m: nat)
    requires m < |list|
    requires forall j, k :: 0 <= j < k < |list| ==> list[j] != list[k]
    ensures forall x :: x in Without(list, m) <==> x in list && x != list[m]
    ensures forall j, k :: 0 <= j < k < |list| - 1 ==> Without(list, m)[j] != Without(list, m)[k]
  {
    var r := Without(list, m);
    forall x | x in list && x != list[m]
      ensures x in r
    {
      var k :| 0 <= k < |list| && list[k] == x;
      assert if k < m then r[k] == x else r[k - 1] == x;
    }
  }

  lemma ThreadAt(pages: seq<LockPage>, head: int, list: seq<int>, j: nat)
    requires Threads(pages, head, list) && j < |list|
    ensures head == list[0] && 0 <= list[j] < |pages| && pages[list[j]].next == At(list, j + 1)
    ensures forall k :: 0 <= k < |list| ==> 0 <= list[k] < |pages| && (list[k] == list[j] ==> k == j)
  {
  }

  /** The pages after the page at position `m` of `list` has been unlinked. */
  function Unlinked(pages: seq<LockPage>, list: seq<int>, m: nat): (r: seq<LockPage>)
    requires m < |list| && forall k :: 0 <= k < |list| ==> 0 <= list[k] < |pages|
    ensures |r| == |pages|
  {
    if m == 0 then pages else pages[list[m - 1] := pages[list[m - 1]].(next := pages[list[m]].next)]
  }

  /** Unlinking cuts exactly one page out of its own walk and leaves every other walk alone. */
  lemma UnlinkThreads(pages: seq<LockPage>, head: int, list: seq<int>, m: nat, otherHead: int, other: seq<int>)
    requires Threads(pages, head, list) && Threads(pages, otherHead, other)
    requires m < |list|
    requires forall i :: i in list ==> i !in other
    ensures var cut := Unlinked(pages, list, m);
            && Threads(cut, if m == 0 then pages[list[m]].next else head, Without(list, m))
            && Threads(cut, otherHead, other)
            && cut[list[m]] == pages[list[m]]
  {
    WithoutMembers(list, m);
    CutWalk(pages, head, list, m);
    var cut := Unlinked(pages, list, m);
    forall k | 0 <= k < |other|
      ensures cut[other[k]] == pages[other[k]]
    {
      assert other[k] in other;
    }
  }

  lemma CutWalk(pages: seq<LockPage>, head: int, list: seq<int>, m: nat)
    requires Threads(pages, head, list) && m < |list|
    ensures var cut, rest := Unlinked(pages, list, m), Without(list, m);
            (forall k :: 0 <= k < |rest| ==> 0 <= rest[k] < |pages| && cut[rest[k]].next == At(rest, k + 1))
            && (if m == 0 then pages[list[m]].next else head) == At(rest, 0) && cut[list[m]] == pages[list[m]]
  {
    hide Threads, Without;
    ThreadAt(pages, head, list, m);
    ThreadAt(pages, head, list, 0);
    if m > 0 {
      ThreadAt(pages, head, list, m - 1);
    }
    var cut, rest := Unlinked(pages, list, m), Without(list, m);
    WithoutFrom(list, m, -1);
    forall k | 0 <= k < |rest|
      ensures 0 <= rest[k] < |pages| && cut[rest[k]].next == At(rest, k + 1)
    {
      ThreadAt(pages, head, list, if k < m then k else k + 1);
      WithoutFrom(list, m, k);
    }
  }

  lemma WithoutFrom(list: seq<int>, m: nat, k: int)
    requires m < |list| && -1 <= k < |list| - 1
    ensures k >= 0 ==> Without(list, m)[k] == list[if k < m then k else k + 1]
    ensures At(Without(list, m), k + 1) == At(list, if k + 1 < m then k + 1 else k + 2)
  {
  }

  /** Putting an unlisted page in front of a list extends that walk and leaves every other walk alone. */
  lemma PushThreads(pages: seq<LockPage>, i: nat, head: int, list: seq<int>, otherHead: int, other: seq<int>)
    requires Threads(pages, head, list) && Threads(pages, otherHead, other)
    requires i < |pages| && i !in list && i !in other
    ensures var pushed := pages[i := pages[i].(next := head)];
            Threads(pushed, i, [i] + list) && Threads(pushed, otherHead, other)
  {
    var pushed := pages[i := pages[i].(next := head)];
    var longer := [i] + list;
    forall k | 0 <= k < |longer|
      ensures 0 <= longer[k] < |pages| && pushed[longer[k]].next == At(longer, k + 1)
    {
      if k > 0 {
        assert longer[k] == list[k - 1] && list[k - 1] in list;
        assert pages[list[k - 1]].next == At(list, k);
      }
    }
    forall k | 0 <= k < |other|
      ensures pushed[other[k]] == pages[other[k]]
    {
      assert other[k] in other;
    }
  }

  /** The pages after page `from[m]` has been moved to the front of the list headed `toHead`. */
  function Moved(pages: seq<LockPage>, from: seq<int>, m: nat, toHead: int): (r: seq<LockPage>)
    requires m < |from| && forall k :: 0 <= k < |from| ==> 0 <= from[k] < |pages|
    ensures |r| == |pages|
  {
    var cut := Unlinked(pages, from, m);
    cut[from[m] := cut[from[m]].(next := toHead)]
  }

  /** Moving page `from[m]` from one list of a partition to the front of the other
      gives a partition again: no page is lost, none is on both lists, and both walks
      still end. */
  lemma MoveKeepsPartition(pages: seq<LockPage>, fromHead: int, from: seq<int>, toHead: int, to: seq<int>, m: nat)
    requires Threads(pages, fromHead, from) && Threads(pages, toHead, to)
    requires m < |from|
    requires forall i :: i in from ==> i !in to
    requires forall i :: 0 <= i < |pages| ==> i in from || i in to
    ensures var moved, from', to' := Moved(pages, from, m, toHead), Without(from, m), [from[m]] + to;
            && Threads(moved, if m == 0 then pages[from[m]].next else fromHead, from')
            && Threads(moved, from[m], to')
            && (forall x :: x in from' ==> x !in to')
            && (forall x :: 0 <= x < |pages| ==> x in from' || x in to')
            && (forall x :: x in to' <==> x == from[m] || x in to)
            && (forall x :: x in from' <==> x in from && x != from[m])
  {
    WithoutMembers(from, m);
    UnlinkThreads(pages, fromHead, from, m, toHead, to);
    var fromHead' := if m == 0 then pages[from[m]].next else fromHead;
    PushThreads(Unlinked(pages, from, m), from[m], toHead, to, fromHead', Without(from, m));
  }

  /** Takes page `index`, which is at position `m` of its list, out of that list. */
  method Unlink(pages: seq<LockPage>, head: int, index: int, ghost list: seq<int>, ghost m: nat)
    returns (pages': seq<LockPage>, head': int)
    requires Threads(pages, head, list)
    requires m < |list| && list[m] == index
    ensures pages' == Unlinked(pages, list, m)
    ensures head' == if m == 0 then pages[index].next else head
  {
    hide Threads;
    ThreadAt(pages, head, list, 0);
    ThreadAt(pages, head, list, m);
    pages', head' := pages, head;
    if index == head {
      head' := pages[head].next;
    } else {
      var previ := head;
      ghost var j := 0;
      while index != pages[previ].next
        invariant j < m && previ == list[j] && 0 <= previ < |pages| && pages[previ].next == list[j + 1]
        decreases m - j
      {
        ThreadAt(pages, head, list, j);
        previ := pages[previ].next;
        j := j + 1;
        ThreadAt(pages, head, list, j);
      }
      pages' := pages[previ := pages[previ].(next := pages[index].next)];
    }
  }

  function Range(n: nat): (r: seq<int>)
    ensures |r| == n && forall i :: 0 <= i < n ==> r[i] == i
  {
    seq(n, i => i)
  }

  /** Readies a class of pages: all of them are free and hold nothing. */
  method StartPages(was: seq<LockPage>, resize: bool, size: nat) returns (info: PageInfo)
    requires |was| >= 1
    ensures |info.pages| == |was|
    ensures Partition(info, Range(|was|), [])
    ensures forall i :: 0 <= i < |was| ==>
      var pg := info.pages[i];
      pg.start == 0 && pg.locks == 0 && !pg.dirty && pg.size == if resize then size else was[i].size
  {
    var pages, i := was, 0;
    while i < |was|
      invariant 0 <= i <= |was| == |pages|
      invariant forall j :: i <= j < |was| ==> pages[j] == was[j]
      invariant forall j :: 0 <= j < i ==>
        pages[j] == LockPage(0, if resize then size else was[j].size, 0, 0, false, if j == |was| - 1 then -1 else j + 1)
    {
      pages := pages[i := LockPage(0, if resize then size else pages[i].size, 0, 0, false, if i == |was| - 1 then -1 else i + 1)];
      i := i + 1;
    }
    info := PageInfo(pages, 0, -1);
    forall j | 0 <= j < |was|
      ensures j in Range(|was|)
    {
      assert Range(|was|)[j] == j;
    }
  }
}
