/** The heap inside virtual memory: headers, the circular free list they form, and the
    tiling of the pool by free and live blocks.

    Everything here is about one flat memory.  That the memory is paged does not matter. */
module HeapState {
  import opened Layers

  const BASE_INDEX := 1          // stands for the header kept outside the pool
  const START_OFFSET := 16       // sizeof(TAlign)
  const HEADER_SIZE := 16        // sizeof(UMemHeader)
  const FIRST := START_OFFSET + HEADER_SIZE
  const MIN_ALLOC_SIZE := 16
  const WORD_LIMIT := 0x1_0000_0000

  // --- headers as bytes ---

  /** Block sizes are in units of the header size.  `pad` is the rest of the union. */
  datatype Header = Header(next: nat, size: nat, pad: seq<byte>) {
    predicate Fits() { next < WORD_LIMIT && size < WORD_LIMIT && |pad| == 8 }
  }

  function Word(m: seq<byte>, a: nat): (r: nat)
    requires a + 4 <= |m|
    ensures r < WORD_LIMIT
  {
    m[a] as int + 0x100 * (m[a + 1] as int) + 0x1_0000 * (m[a + 2] as int) + 0x100_0000 * (m[a + 3] as int)
  }

  function WordBytes(n: nat): (r: seq<byte>)
    requires n < WORD_LIMIT
    ensures |r| == 4
  {
    [n % 0x100, n / 0x100 % 0x100, n / 0x100 / 0x100 % 0x100, n / 0x100 / 0x100 / 0x100]
  }

  function Decode(d: seq<byte>): (h: Header)
    requires |d| == HEADER_SIZE
    ensures h.Fits()
  {
    Header(Word(d, 0), Word(d, 4), d[8..])
  }

  function Encode(h: Header): (d: seq<byte>)
    requires h.Fits()
    ensures |d| == HEADER_SIZE
  {
    WordBytes(h.next) + WordBytes(h.size) + h.pad
  }

  lemma WordRoundTrip(n: nat)
    requires n < WORD_LIMIT
    ensures Word(WordBytes(n), 0) == n
  {
  }

  lemma HeaderRoundTrip(h: Header)
    requires h.Fits()
    ensures Decode(Encode(h)) == h
  {
    var d := Encode(h);
    assert d[0..4] == WordBytes(h.next) && d[4..8] == WordBytes(h.size);
    assert forall j :: 0 <= j < 4 ==> d[j] == WordBytes(h.next)[j] && d[4 + j] == WordBytes(h.size)[j];
    WordRoundTrip(h.next);
    WordRoundTrip(h.size);
  }

  ghost function HeaderAt(m: seq<byte>, a: nat): (h: Header)
    requires a + HEADER_SIZE <= |m|
    ensures h.Fits()
  {
    Decode(m[a..a + HEADER_SIZE])
  }

  /** Storing a header puts it there, and leaves all others that do not overlap alone. */
  lemma StoredHeader(m: seq<byte>, a: nat, h: Header, m': seq<byte>)
    requires a + HEADER_SIZE <= |m| && h.Fits() && Stored(m, a, Encode(h), m')
    ensures HeaderAt(m', a) == h
    ensures forall b: nat :: b + HEADER_SIZE <= |m| && (b + HEADER_SIZE <= a || a + HEADER_SIZE <= b) ==> HeaderAt(m', b) == HeaderAt(m, b)
  {
    HeaderRoundTrip(h);
    assert m'[a..a + HEADER_SIZE] == Encode(h);
    forall b: nat | b + HEADER_SIZE <= |m| && (b + HEADER_SIZE <= a || a + HEADER_SIZE <= b)
      ensures HeaderAt(m', b) == HeaderAt(m, b)
    {
      assert m'[b..b + HEADER_SIZE] == m[b..b + HEADER_SIZE];
    }
  }

  // --- the circular list ---

  /** In a list sorted by address, `q` follows `p`: it is the next higher element, or `p`
      is the highest and `q` the lowest. */
  predicate IsNext(F: set<nat>, p: nat, q: nat) {
    q in F && if q > p then forall f :: f in F ==> f <= p || q <= f else forall f :: f in F ==> q <= f <= p
  }

  /** Inserting `h` between `p` and its successor `q`. */
  lemma InsertNext(F: set<nat>, p: nat, q: nat, h: nat)
    requires p in F && IsNext(F, p, q) && h !in F && p < h && (h < q || q <= p)
    ensures IsNext(F + {h}, p, h) && IsNext(F + {h}, h, q)
    ensures forall f, g :: f in F && f != p && IsNext(F, f, g) ==> IsNext(F + {h}, f, g)
  {
  }

  /** Removing `h`, whose predecessor is `p` and whose successor is `q`. */
  lemma RemoveNext(F: set<nat>, p: nat, h: nat, q: nat)
    requires p in F && h in F && p != h && IsNext(F, p, h) && IsNext(F, h, q)
    ensures IsNext(F - {h}, p, q)
    ensures forall f, g :: f in F && f != p && f != h && IsNext(F, f, g) ==> IsNext(F - {h}, f, g)
  {
  }

  /** The elements one meets walking from `p` up to and including `s`. */
  ghost function Arc(F: set<nat>, p: nat, s: nat): set<nat> {
    set f | f in F && if p <= s then p <= f <= s else f >= p || f <= s
  }

  /** Each step of a walk leaves one element behind. */
  lemma ArcStep(F: set<nat>, p: nat, q: nat, s: nat)
    requires p in F && s in F && p != s && IsNext(F, p, q)
    ensures p in Arc(F, p, s) && Arc(F, q, s) == Arc(F, p, s) - {p}
  {
  }

  /** A walk from the successor of `s` to `s` meets every element. */
  lemma ArcAll(F: set<nat>, s: nat, q: nat)
    requires s in F && IsNext(F, s, q)
    ensures Arc(F, q, s) == F
  {
  }

  // --- the tiling of the pool ---

  /** Blocks, given by address with their sizes in units, fill [FIRST, end) without gap or overlap. */
  ghost predicate Tiled(blocks: map<nat, nat>, end: nat) {
    && FIRST <= end && end % HEADER_SIZE == 0 && (end == FIRST || FIRST in blocks)
    && (forall a {:trigger Tile(blocks, end, a)} :: a in blocks ==> Tile(blocks, end, a))
    && NoOverlap(blocks)
  }

  ghost predicate NoOverlap(blocks: map<nat, nat>) {
    forall a, b :: a in blocks && b in blocks && a < b ==> End(blocks, a) <= b
  }

  /** A block that ends where the next one begins, or where the heap ends. */
  ghost predicate Tile(blocks: map<nat, nat>, end: nat, a: nat)
    requires a in blocks
  {
    && FIRST <= a && a % HEADER_SIZE == 0 && 1 <= blocks[a] && End(blocks, a) <= end
    && (End(blocks, a) == end || End(blocks, a) in blocks)
  }

  function End(blocks: map<nat, nat>, a: nat): nat
    requires a in blocks
  {
    a + HEADER_SIZE * blocks[a]
  }

  /** What the free list threads: the outside header and every block that is not live. */
  function FreeSet(blocks: map<nat, nat>, live: set<nat>): set<nat> {
    {BASE_INDEX} + (blocks.Keys - live)
  }

  ghost predicate SizesOk(m: seq<byte>, blocks: map<nat, nat>) {
    forall a :: a in blocks ==> a + HEADER_SIZE <= |m| && HeaderAt(m, a).size == blocks[a]
  }

  /** The successor of `p` on the free list: the outside header keeps its own. */
  ghost function NextOf(m: seq<byte>, baseNext: nat, p: nat): nat
    requires p == BASE_INDEX || p + HEADER_SIZE <= |m|
  {
    if p == BASE_INDEX then baseNext else HeaderAt(m, p).next
  }

  ghost predicate ListOk(m: seq<byte>, baseNext: nat, F: set<nat>) {
    && BASE_INDEX in F
    && forall f :: f in F ==> (f == BASE_INDEX || (FIRST <= f && f + HEADER_SIZE <= |m|)) && IsNext(F, f, NextOf(m, baseNext, f))
  }

  /** The header list stored in memory is intact. */
  ghost predicate HeapOk(m: seq<byte>, baseNext: nat, blocks: map<nat, nat>, live: set<nat>, end: nat) {
    && Tiled(blocks, end) && live <= blocks.Keys && end <= |m|
    && SizesOk(m, blocks) && ListOk(m, baseNext, FreeSet(blocks, live))
  }

  /** No byte of a live block differs. */
  ghost predicate LiveSame(m: seq<byte>, m': seq<byte>, blocks: map<nat, nat>, live: set<nat>) {
    |m'| == |m| && forall a, k :: a in live && a in blocks && a <= k < End(blocks, a) && k < |m| ==> m'[k] == m[k]
  }

  /** Blocks that were live keep their places, their sizes and every byte. */
  ghost predicate LiveKept(m: seq<byte>, blocks: map<nat, nat>, live: set<nat>, m': seq<byte>, blocks': map<nat, nat>) {
    && (forall a :: a in live ==> a in blocks && a in blocks' && blocks'[a] == blocks[a])
    && LiveSame(m, m', blocks, live)
  }

  lemma LiveThrough(m: seq<byte>, blocks: map<nat, nat>, live: set<nat>, mid: seq<byte>, blocks1: map<nat, nat>,
                    m': seq<byte>, blocks': map<nat, nat>)
    requires LiveKept(m, blocks, live, mid, blocks1) && LiveKept(mid, blocks1, live, m', blocks')
    ensures LiveKept(m, blocks, live, m', blocks')
  {
    forall a, k | a in live && a in blocks && a <= k < End(blocks, a) && k < |m|
      ensures m'[k] == m[k]
    {
      assert a in blocks1 && k < End(blocks1, a) && mid[k] == m[k];
    }
  }

  /** The headers at the addresses `A` are the same. */
  ghost predicate SameHeaders(m: seq<byte>, m': seq<byte>, A: set<nat>) {
    |m'| == |m| && forall a :: a in A && a + HEADER_SIZE <= |m| ==> HeaderAt(m', a) == HeaderAt(m, a)
  }

  lemma SameBytesSameHeaders(m: seq<byte>, m': seq<byte>, A: set<nat>)
    requires |m'| == |m|
    requires forall a, k :: a in A && a <= k < a + HEADER_SIZE && k < |m| ==> m'[k] == m[k]
    ensures SameHeaders(m, m', A)
  {
    forall a | a in A && a + HEADER_SIZE <= |m|
      ensures HeaderAt(m', a) == HeaderAt(m, a)
    {
      assert m'[a..a + HEADER_SIZE] == m[a..a + HEADER_SIZE];
    }
  }

  /** The heap only depends on the headers of its blocks. */
  lemma HeapDependsOnHeaders(m: seq<byte>, m': seq<byte>, baseNext: nat, blocks: map<nat, nat>, live: set<nat>, end: nat)
    requires HeapOk(m, baseNext, blocks, live, end)
    requires SameHeaders(m, m', blocks.Keys)
    ensures HeapOk(m', baseNext, blocks, live, end)
  {
    hide HeaderAt, IsNext, Tiled;
    var F := FreeSet(blocks, live);
    forall f | f in F
      ensures IsNext(F, f, NextOf(m', baseNext, f))
    {
      assert IsNext(F, f, NextOf(m, baseNext, f));
    }
  }

  // --- what the allocator does to the heap ---

  /** The successor of `p` becomes `q`; no other successor and no size changes. */
  ghost predicate NextSet(m: seq<byte>, baseNext: nat, A: set<nat>, p: nat, q: nat, m': seq<byte>, baseNext': nat) {
    && |m'| == |m|
    && (forall f :: (f == BASE_INDEX || (f in A && f + HEADER_SIZE <= |m|)) ==>
          NextOf(m', baseNext', f) == if f == p then q else NextOf(m, baseNext, f))
    && (forall a :: a in A && a + HEADER_SIZE <= |m| ==> HeaderAt(m', a).size == HeaderAt(m, a).size)
  }

  /** A free block becomes live once its predecessor points past it. */
  lemma TakeOk(m: seq<byte>, baseNext: nat, blocks: map<nat, nat>, live: set<nat>, end: nat, prev: nat, p: nat,
               m': seq<byte>, baseNext': nat)
    requires HeapOk(m, baseNext, blocks, live, end)
    requires p in blocks && p !in live && prev in FreeSet(blocks, live) && prev != p && NextOf(m, baseNext, prev) == p
    requires NextSet(m, baseNext, blocks.Keys, prev, NextOf(m, baseNext, p), m', baseNext')
    ensures HeapOk(m', baseNext', blocks, live + {p}, end)
  {
    hide HeaderAt, IsNext, Tiled, NextOf;
    var F := FreeSet(blocks, live);
    assert FreeSet(blocks, live + {p}) == F - {p} by {
      FirstIsNotBase(blocks, end, p);
    }
    RemoveNext(F, prev, p, NextOf(m, baseNext, p));
    forall f | f in F - {p}
      ensures IsNext(F - {p}, f, NextOf(m', baseNext', f))
    {
      assert IsNext(F, f, NextOf(m, baseNext, f));
    }
  }

  lemma FirstIsNotBase(blocks: map<nat, nat>, end: nat, a: nat)
    requires Tiled(blocks, end) && a in blocks
    ensures a >= FIRST > BASE_INDEX && a + HEADER_SIZE <= End(blocks, a) <= end && a % HEADER_SIZE == 0
  {
    assert Tile(blocks, end, a);
  }

  /** A live block becomes free once it is threaded between `p` and its successor. */
  lemma GiveOk(m: seq<byte>, baseNext: nat, blocks: map<nat, nat>, live: set<nat>, end: nat, p: nat, h: nat,
               mid: seq<byte>, m': seq<byte>, baseNext': nat)
    requires HeapOk(m, baseNext, blocks, live, end)
    requires h in live && p in FreeSet(blocks, live)
    requires var q := NextOf(m, baseNext, p); p < h && (h < q || q <= p)
    requires NextSet(m, baseNext, blocks.Keys, h, NextOf(m, baseNext, p), mid, baseNext)
    requires NextSet(mid, baseNext, blocks.Keys, p, h, m', baseNext')
    ensures HeapOk(m', baseNext', blocks, live - {h}, end)
  {
    hide HeaderAt, IsNext, Tiled, NextOf;
    var F := FreeSet(blocks, live);
    assert FreeSet(blocks, live - {h}) == F + {h};
    assert h in blocks && h !in F by {
      FirstIsNotBase(blocks, end, h);
    }
    FirstIsNotBase(blocks, end, h);
    InsertNext(F, p, NextOf(m, baseNext, p), h);
    forall f | f in F + {h}
      ensures IsNext(F + {h}, f, NextOf(m', baseNext', f))
    {
      assert f in F ==> IsNext(F, f, NextOf(m, baseNext, f));
      assert f != BASE_INDEX ==> f in blocks.Keys;
    }
  }

  /** Cutting `q` units off the end of a block. */
  lemma TiledSplit(blocks: map<nat, nat>, end: nat, p: nat, q: nat)
    requires Tiled(blocks, end) && p in blocks && 1 <= q < blocks[p]
    ensures var t := p + HEADER_SIZE * (blocks[p] - q);
            t !in blocks && p < t && t + HEADER_SIZE <= end && Tiled(blocks[p := blocks[p] - q][t := q], end)
  {
    SplitNoOverlap(blocks, p, q);
    SplitTiles(blocks, end, p, q);
  }

  lemma SplitTiles(blocks: map<nat, nat>, end: nat, p: nat, q: nat)
    requires Tiled(blocks, end) && p in blocks && 1 <= q < blocks[p] && p + HEADER_SIZE * (blocks[p] - q) !in blocks
    ensures var t := p + HEADER_SIZE * (blocks[p] - q); var blocks' := blocks[p := blocks[p] - q][t := q];
            t + HEADER_SIZE <= end && forall a :: a in blocks' ==> Tile(blocks', end, a)
  {
    hide NoOverlap;
    var t := p + HEADER_SIZE * (blocks[p] - q);
    var blocks' := blocks[p := blocks[p] - q][t := q];
    assert Tile(blocks, end, p);
    SameRest(p, blocks[p] - q);
    assert End(blocks', p) == t && End(blocks', t) == End(blocks, p);
    forall a | a in blocks && a != p
      ensures Tile(blocks', end, a)
    {
      assert Tile(blocks, end, a);
    }
  }

  lemma SameRest(p: nat, u: nat)
    ensures (p + HEADER_SIZE * u) % HEADER_SIZE == p % HEADER_SIZE
  {
    var k := p / HEADER_SIZE;
    assert p + HEADER_SIZE * u == HEADER_SIZE * (k + u) + p % HEADER_SIZE;
  }

  lemma SplitNoOverlap(blocks: map<nat, nat>, p: nat, q: nat)
    requires NoOverlap(blocks) && p in blocks && 1 <= q < blocks[p]
    ensures var t := p + HEADER_SIZE * (blocks[p] - q);
            t !in blocks && p < t && NoOverlap(blocks[p := blocks[p] - q][t := q])
  {
    var t := p + HEADER_SIZE * (blocks[p] - q);
    assert t !in blocks;
    var blocks' := blocks[p := blocks[p] - q][t := q];
    forall a, b | a in blocks' && b in blocks' && a < b
      ensures End(blocks', a) <= b
    {
      if b == t {
        assert a in blocks && (a < p ==> End(blocks, a) <= p) && (p < a ==> End(blocks, p) <= a);
      } else if a == t {
        assert b in blocks && p < b;
      } else {
        assert End(blocks, a) <= b;
      }
    }
  }

  lemma SplitOk(m: seq<byte>, baseNext: nat, blocks: map<nat, nat>, live: set<nat>, end: nat, p: nat, rest: nat, t: nat, q: nat, m': seq<byte>)
    requires |m'| == |m| && p + HEADER_SIZE <= |m| && t + HEADER_SIZE <= |m| && 1 <= q && 1 <= rest
    requires HeaderAt(m', t).size == q && HeaderAt(m', p) == HeaderAt(m, p).(size := rest)
    requires p in blocks && p !in live && blocks[p] == rest + q && t == p + HEADER_SIZE * rest
    requires SameHeaders(m, m', blocks.Keys - {p})
    requires HeapOk(m, baseNext, blocks, live, end)
    ensures HeapOk(m', baseNext, blocks[p := rest][t := q], live + {t}, end)
  {
    hide HeaderAt, IsNext, Tiled;
    TiledSplit(blocks, end, p, q);
    FirstIsNotBase(blocks, end, p);
    var blocks', live' := blocks[p := rest][t := q], live + {t};
    var F := FreeSet(blocks, live);
    assert FreeSet(blocks', live') == F;
    forall f | f in F
      ensures IsNext(F, f, NextOf(m', baseNext, f))
    {
      assert IsNext(F, f, NextOf(m, baseNext, f));
    }
  }

  lemma TiledGrow(blocks: map<nat, nat>, end: nat, u: nat)
    requires Tiled(blocks, end) && 1 <= u
    ensures end !in blocks && Tiled(blocks[end := u], end + HEADER_SIZE * u)
  {
    GrowNoOverlap(blocks, end, u);
    hide NoOverlap;
    var blocks', end' := blocks[end := u], end + HEADER_SIZE * u;
    assert end' % HEADER_SIZE == 0 by {
      var k := end / HEADER_SIZE;
      assert end == HEADER_SIZE * k && end' == HEADER_SIZE * (k + u);
    }
    assert FIRST in blocks';
    forall a | a in blocks'
      ensures Tile(blocks', end', a)
    {
      assert a != end ==> Tile(blocks, end, a);
    }
  }

  lemma GrowNoOverlap(blocks: map<nat, nat>, end: nat, u: nat)
    requires Tiled(blocks, end) && 1 <= u
    ensures end !in blocks && NoOverlap(blocks[end := u])
  {
    forall a | a in blocks
      ensures a < end && End(blocks, a) <= end
    {
      assert Tile(blocks, end, a);
    }
  }

  /** A new live block at the end of the heap. */
  lemma GrowOk(m: seq<byte>, baseNext: nat, blocks: map<nat, nat>, live: set<nat>, end: nat, u: nat, m': seq<byte>)
    requires HeapOk(m, baseNext, blocks, live, end)
    requires 1 <= u && end + HEADER_SIZE * u <= |m| && |m'| == |m|
    requires HeaderAt(m', end).size == u && SameHeaders(m, m', blocks.Keys)
    ensures HeapOk(m', baseNext, blocks[end := u], live + {end}, end + HEADER_SIZE * u)
  {
    hide HeaderAt, IsNext, Tiled;
    TiledGrow(blocks, end, u);
    HeapDependsOnHeaders(m, m', baseNext, blocks, live, end);
    assert FreeSet(blocks[end := u], live + {end}) == FreeSet(blocks, live);
  }

  /** What writing the header of `p`, with the same size, does to the list. */
  lemma UpdatedNext(m: seq<byte>, baseNext: nat, A: set<nat>, p: nat, h: Header, m': seq<byte>, baseNext': nat)
    requires BASE_INDEX !in A && forall a :: a in A && a != p ==> a + HEADER_SIZE <= p || p + HEADER_SIZE <= a
    requires if p == BASE_INDEX then m' == m && baseNext' == h.next
             else && p in A && p + HEADER_SIZE <= |m| && h.Fits() && h.size == HeaderAt(m, p).size
                  && Stored(m, p, Encode(h), m') && baseNext' == baseNext
    ensures NextSet(m, baseNext, A, p, h.next, m', baseNext')
  {
    if p != BASE_INDEX {
      StoredHeader(m, p, h, m');
    }
    hide HeaderAt, Encode;
  }

  /** Headers of blocks do not overlap. */
  lemma HeadersApart(blocks: map<nat, nat>, end: nat)
    requires Tiled(blocks, end)
    ensures BASE_INDEX !in blocks.Keys
    ensures forall a, b :: a in blocks && b in blocks && a < b ==> a + HEADER_SIZE <= b
    ensures forall a :: a in blocks ==> FIRST <= a && a + HEADER_SIZE <= end && a % HEADER_SIZE == 0
  {
    forall a | a in blocks
      ensures FIRST <= a && a + HEADER_SIZE <= End(blocks, a) <= end && a % HEADER_SIZE == 0
    {
      FirstIsNotBase(blocks, end, a);
    }
    forall a, b | a in blocks && b in blocks && a < b
      ensures a + HEADER_SIZE <= b
    {
      assert a + HEADER_SIZE <= End(blocks, a) <= b;
    }
  }

  /** The element of a list after which `h` belongs. */
  lemma MaxBelow(F: set<nat>, h: nat) returns (s: nat)
    requires exists f :: f in F && f < h
    ensures s in F && s < h && forall f :: f in F && f < h ==> f <= s
    decreases |F|
  {
    var one :| one in F && one < h;
    s := one;
    if f :| f in F - {one} && f < h {
      var t := MaxBelow(F - {one}, h);
      s := if one < t then t else one;
    }
    forall f | f in F && f < h
      ensures f <= s
    {
      assert f != one ==> f in F - {one};
    }
  }

  /** Where a walk round the list stops to insert `h`, it may be inserted. */
  lemma PlaceFound(F: set<nat>, p: nat, q: nat, h: nat)
    requires p in F && IsNext(F, p, q) && BASE_INDEX in F && BASE_INDEX < h
    requires (h > p && h < q) || (p >= q && (h > p || h < q))
    requires forall f :: f in F ==> f >= BASE_INDEX
    ensures p < h && (h < q || q <= p)
  {
  }

  /** And at the latest it stops at the highest element below `h`. */
  lemma PlaceExists(F: set<nat>, s: nat, q: nat, h: nat)
    requires s in F && s < h && h !in F && IsNext(F, s, q) && forall f :: f in F && f < h ==> f <= s
    ensures (h > s && h < q) || (s >= q && (h > s || h < q))
  {
  }

  /** freeRaw compares an address plus a size counted in header units with an address, so
      the block to free never looks adjacent to either neighbour: no two blocks are merged. */
  lemma NeverJoins(blocks: map<nat, nat>, end: nat, p: nat, h: nat, q: nat, sizeOfP: nat)
    requires Tiled(blocks, end) && h in blocks
    requires p == BASE_INDEX || p in blocks
    requires q == BASE_INDEX || q in blocks
    requires p != h && sizeOfP == if p == BASE_INDEX then 0 else blocks[p]
    ensures h + blocks[h] != q && p + sizeOfP != h
  {
    FirstIsNotBase(blocks, end, h);
    if q in blocks && h < q {
      assert End(blocks, h) <= q;
    }
    if p in blocks {
      FirstIsNotBase(blocks, end, p);
      assert p < h ==> End(blocks, p) <= h;
    }
  }

  /** Only headers of the free list differ. */
  ghost predicate OnlyHeaders(m: seq<byte>, m': seq<byte>, F: set<nat>) {
    |m'| == |m| && forall k :: 0 <= k < |m| && m'[k] != m[k] ==> exists f :: f in F && f != BASE_INDEX && f <= k < f + HEADER_SIZE
  }

  lemma OneHeader(m: seq<byte>, p: nat, h: Header, m': seq<byte>, F: set<nat>)
    requires p in F && p != BASE_INDEX && h.Fits() && Stored(m, p, Encode(h), m')
    ensures OnlyHeaders(m, m', F)
  {
  }

  lemma TwoHeaders(m: seq<byte>, mid: seq<byte>, m': seq<byte>, F: set<nat>)
    requires OnlyHeaders(m, mid, F) && OnlyHeaders(mid, m', F)
    ensures OnlyHeaders(m, m', F)
  {
  }

  /** No byte of a live block lies in the header of a free one. */
  lemma LiveUntouched(m: seq<byte>, m': seq<byte>, blocks: map<nat, nat>, live: set<nat>, end: nat, F: set<nat>)
    requires Tiled(blocks, end) && OnlyHeaders(m, m', F)
    requires F <= FreeSet(blocks, live)
    ensures LiveSame(m, m', blocks, live)
  {
    forall f, a | f in F && f != BASE_INDEX && a in live && a in blocks
      ensures f + HEADER_SIZE <= a || End(blocks, a) <= f
    {
      FirstIsNotBase(blocks, end, f);
    }
  }

  lemma NoHeaders(m: seq<byte>, F: set<nat>)
    ensures OnlyHeaders(m, m, F)
  {
  }

  // --- what a walk round the list needs to know ---

  /** What one element of the list looks like. */
  ghost predicate Element(m: seq<byte>, base: Header, blocks: map<nat, nat>, F: set<nat>, p: nat) {
    && BASE_INDEX <= p && (p == BASE_INDEX || (FIRST <= p && p + HEADER_SIZE <= |m| && p in blocks && HeaderAt(m, p).size == blocks[p]))
    && IsNext(F, p, HeaderOf(m, base, p).next)
  }

  ghost function HeaderOf(m: seq<byte>, base: Header, p: nat): Header
    requires p == BASE_INDEX || p + HEADER_SIZE <= |m|
  {
    if p == BASE_INDEX then base else HeaderAt(m, p)
  }

  lemma ListElement(m: seq<byte>, base: Header, blocks: map<nat, nat>, live: set<nat>, end: nat, p: nat)
    requires HeapOk(m, base.next, blocks, live, end) && p in FreeSet(blocks, live)
    ensures Element(m, base, blocks, FreeSet(blocks, live), p)
    ensures HeaderOf(m, base, p).next in FreeSet(blocks, live)
    ensures p != BASE_INDEX ==> p !in live && p + HEADER_SIZE <= end
  {
    hide HeaderAt;
    if p != BASE_INDEX {
      FirstIsNotBase(blocks, end, p);
    }
  }

  lemma LiveElement(m: seq<byte>, baseNext: nat, blocks: map<nat, nat>, live: set<nat>, end: nat, h: nat)
    requires HeapOk(m, baseNext, blocks, live, end) && h in live
    ensures h in blocks && FIRST <= h && h + HEADER_SIZE <= |m| && h !in FreeSet(blocks, live)
    ensures h + HEADER_SIZE * blocks[h] <= end && h % HEADER_SIZE == 0
    ensures HeaderAt(m, h).size == blocks[h]
  {
    hide HeaderAt, IsNext;
    FirstIsNotBase(blocks, end, h);
  }

  /** The header of `p` is rewritten: in memory, or outside it. */
  ghost predicate Rewritten(m: seq<byte>, base: Header, p: nat, h: Header, m': seq<byte>, base': Header) {
    if p == BASE_INDEX then m' == m && base' == h
    else base' == base && h.Fits() && Stored(m, p, Encode(h), m')
  }

  lemma WrittenNext(m: seq<byte>, base: Header, blocks: map<nat, nat>, end: nat, p: nat, q: nat, m': seq<byte>, base': Header)
    requires Tiled(blocks, end) && end <= |m| && (p == BASE_INDEX || p in blocks)
    requires p == BASE_INDEX || p + HEADER_SIZE <= |m|
    requires q < WORD_LIMIT && Rewritten(m, base, p, HeaderOf(m, base, p).(next := q), m', base')
    ensures NextSet(m, base.next, blocks.Keys, p, q, m', base'.next)
  {
    hide Tiled, Encode, HeaderAt;
    HeadersApart(blocks, end);
    UpdatedNext(m, base.next, blocks.Keys, p, HeaderOf(m, base, p).(next := q), m', base'.next);
  }

  /** Two header updates thread a live block into the list after `p`. */
  lemma ThreadOk(m: seq<byte>, base: Header, blocks: map<nat, nat>, live: set<nat>, end: nat, p: nat, h: nat,
                 mid: seq<byte>, m': seq<byte>, base': Header)
    requires HeapOk(m, base.next, blocks, live, end) && |m| <= WORD_LIMIT
    requires h in live && h in blocks && h + HEADER_SIZE <= |m| && p in FreeSet(blocks, live) && (p == BASE_INDEX || p + HEADER_SIZE <= |m|)
    requires var q := HeaderOf(m, base, p).next; p < h && (h < q || q <= p)
    requires Rewritten(m, base, h, HeaderAt(m, h).(next := HeaderOf(m, base, p).next), mid, base)
    requires base.Fits() && |mid| == |m|
    requires Rewritten(mid, base, p, HeaderOf(m, base, p).(next := h), m', base')
    ensures HeapOk(m', base'.next, blocks, live - {h}, end)
    ensures NextOf(m', base'.next, p) == h
    ensures base'.size == base.size && base'.Fits()
  {
    hide HeapOk, Tiled, IsNext, HeaderAt, Encode, NextSet, Stored;
    var q := HeaderOf(m, base, p).next;
    TiledOf(m, base.next, blocks, live, end);
    LiveElement(m, base.next, blocks, live, end, h);
    WrittenNext(m, base, blocks, end, h, q, mid, base);
    SameHeader(m, base, blocks, end, h, p, HeaderAt(m, h).(next := q), mid);
    WrittenNext(mid, base, blocks, end, p, h, m', base');
    GiveOk(m, base.next, blocks, live, end, p, h, mid, m', base'.next);
    NextIsSet(mid, base.next, blocks.Keys, p, h, m', base'.next);
  }

  lemma TiledOf(m: seq<byte>, baseNext: nat, blocks: map<nat, nat>, live: set<nat>, end: nat)
    requires HeapOk(m, baseNext, blocks, live, end)
    ensures Tiled(blocks, end) && end <= |m|
    ensures live <= blocks.Keys
  {
  }

  lemma NextIsSet(m: seq<byte>, baseNext: nat, A: set<nat>, p: nat, q: nat, m': seq<byte>, baseNext': nat)
    requires NextSet(m, baseNext, A, p, q, m', baseNext') && (p == BASE_INDEX || (p in A && p + HEADER_SIZE <= |m|))
    ensures NextOf(m', baseNext', p) == q
  {
  }

  lemma SameHeader(m: seq<byte>, base: Header, blocks: map<nat, nat>, end: nat, h: nat, p: nat, v: Header, m': seq<byte>)
    requires Tiled(blocks, end) && end <= |m| && h in blocks && p != h && (p == BASE_INDEX || p in blocks) && v.Fits()
    requires h + HEADER_SIZE <= |m| && Stored(m, h, Encode(v), m')
    requires p == BASE_INDEX || p + HEADER_SIZE <= |m|
    ensures HeaderOf(m', base, p) == HeaderOf(m, base, p)
  {
    hide HeaderAt, Encode, Tiled;
    HeadersApart(blocks, end);
    StoredHeader(m, h, v, m');
  }

  lemma RewrittenOnly(m: seq<byte>, base: Header, p: nat, h: Header, m': seq<byte>, base': Header, F: set<nat>)
    requires Rewritten(m, base, p, h, m', base') && p in F
    ensures OnlyHeaders(m, m', F)
  {
  }

  // --- sizes ---

  /** The number of units a request takes: its bytes rounded up, and one for the header. */
  function Units(size: nat): (q: nat)
    ensures HEADER_SIZE * (q - 1) >= size
    ensures size > 0 ==> q >= 2 && HEADER_SIZE * (q - 2) < size
  {
    (size + HEADER_SIZE - 1) / HEADER_SIZE + 1
  }

  /** The number of units getMem takes from the untouched end of the pool. */
  function Grow(q: nat): (u: nat)
    ensures u >= q && u >= 16 && (u == q || u == 16)
  {
    if q < MIN_ALLOC_SIZE then MIN_ALLOC_SIZE else q
  }

  /** getMem's test for room, in 32 bit arithmetic. */
  predicate RoomTest(end: nat, u: nat, poolSize: nat) {
    (end + HEADER_SIZE * u % WORD_LIMIT) % WORD_LIMIT <= poolSize
  }

  /** A free block holds at least `q` units. */
  ghost predicate AvailableIn(blocks: map<nat, nat>, live: set<nat>, q: nat) {
    exists a :: a in blocks && a !in live && blocks[a] >= q
  }

  /** Walking the list from the successor of `s` on, `p` is the first block of at least `q` units. */
  ghost predicate FirstFit(blocks: map<nat, nat>, live: set<nat>, s: nat, q: nat, p: nat) {
    && p in blocks && p !in live && blocks[p] >= q
    && forall a :: a in blocks && a !in live && blocks[a] >= q ==> a in Arc(FreeSet(blocks, live), p, s)
  }

  lemma OneFirstFit(blocks: map<nat, nat>, live: set<nat>, s: nat, q: nat, p: nat, p': nat)
    requires FirstFit(blocks, live, s, q, p) && FirstFit(blocks, live, s, q, p')
    ensures p == p'
  {
    assert p in Arc(FreeSet(blocks, live), p', s) && p' in Arc(FreeSet(blocks, live), p, s);
  }

  /** Block `h`, the last `q` units of free block `p`, is taken off it. */
  ghost predicate CutOff(blocks: map<nat, nat>, p: nat, q: nat, h: nat, blocks': map<nat, nat>) {
    && p in blocks && blocks[p] >= q && h == p + HEADER_SIZE * (blocks[p] - q)
    && blocks' == if blocks[p] == q then blocks else blocks[p := blocks[p] - q][h := q]
  }

  /** The blocks to choose from when the heap, which ended at `end`, ends at `end'`: what it grows by is one of them. */
  function Choice(blocks: map<nat, nat>, end: nat, end': nat): map<nat, nat> {
    if end' <= end then blocks else blocks[end := (end' - end) / HEADER_SIZE]
  }

  /** Block `h` of `q` units is the tail of `p`: the first large enough from the successor of `s`
      on, or what the heap grows by.  The next walk starts where this one ended. */
  ghost predicate Served(blocks: map<nat, nat>, live: set<nat>, end: nat, s: nat, q: nat, p: nat, h: nat,
                         blocks': map<nat, nat>, end': nat, s': nat) {
    && CutOff(Choice(blocks, end, end'), p, q, h, blocks')
    && IsNext(FreeSet(Choice(blocks, end, end'), live), s', p)
    && if end' == end then FirstFit(blocks, live, s, q, p) else p == end
  }

  /** Where the sum does not wrap round, or wraps round to something still too large. */
  predicate NoWrap(end: nat, u: nat, poolSize: nat) {
    end + HEADER_SIZE * u < WORD_LIMIT || (end + HEADER_SIZE * u) % WORD_LIMIT > poolSize
  }

  /** The test says that there is room exactly when there is, if and only if the sum does
      not wrap round to something that fits. */
  lemma RoomTestRight(end: nat, u: nat, poolSize: nat)
    requires poolSize < WORD_LIMIT
    ensures NoWrap(end, u, poolSize) <==> (RoomTest(end, u, poolSize) <==> end + HEADER_SIZE * u <= poolSize)
  {
  }

  /** Otherwise a request nearly as large as the address space looks as if it fits. */
  lemma RoomTestWrong()
    ensures var u := Grow(Units(0xFFFF_FFE0));
            RoomTest(FIRST, u, 0x10_0000) && FIRST + HEADER_SIZE * u > 0x10_0000 && !NoWrap(FIRST, u, 0x10_0000)
  {
  }

  // --- taking a block off the list ---

  lemma SingletonList(m: seq<byte>, baseNext: nat)
    requires baseNext == BASE_INDEX && FIRST <= |m|
    ensures HeapOk(m, baseNext, map[], {}, FIRST)
  {
  }

  lemma UnlinkOk(m: seq<byte>, base: Header, blocks: map<nat, nat>, live: set<nat>, end: nat, prev: nat, p: nat,
                 m': seq<byte>, base': Header)
    requires HeapOk(m, base.next, blocks, live, end) && base.Fits()
    requires p in FreeSet(blocks, live) && p != BASE_INDEX && prev in FreeSet(blocks, live)
    requires p + HEADER_SIZE <= |m| && (prev == BASE_INDEX || prev + HEADER_SIZE <= |m|)
    requires HeaderOf(m, base, prev).next == p
    requires Rewritten(m, base, prev, HeaderOf(m, base, prev).(next := HeaderAt(m, p).next), m', base')
    ensures prev != p && HeapOk(m', base'.next, blocks, live + {p}, end)
    ensures base'.size == base.size && base'.Fits() && prev in FreeSet(blocks, live + {p})
  {
    hide HeapOk, Tiled, HeaderAt, Encode, NextSet, Stored;
    TiledOf(m, base.next, blocks, live, end);
    ListElement(m, base, blocks, live, end, prev);
    assert prev != p by {
      ListElement(m, base, blocks, live, end, BASE_INDEX);
    }
    WrittenNext(m, base, blocks, end, prev, HeaderAt(m, p).next, m', base');
    TakeOk(m, base.next, blocks, live, end, prev, p, m', base'.next);
  }

  /** The size of `p` is cut down to `rest`, and the header of its tail `t` is given the size `q`. */
  ghost predicate CutWritten(m: seq<byte>, p: nat, rest: nat, t: nat, q: nat, mid: seq<byte>, m': seq<byte>) {
    && |mid| == |m| && p + HEADER_SIZE <= |m| && t + HEADER_SIZE <= |m| && rest < WORD_LIMIT && q < WORD_LIMIT
    && Stored(m, p, Encode(HeaderAt(m, p).(size := rest)), mid)
    && Stored(mid, t, Encode(HeaderAt(mid, t).(size := q)), m')
  }

  lemma CutIsWritten(m: seq<byte>, base: Header, p: nat, rest: nat, t: nat, q: nat, mid: seq<byte>, m': seq<byte>)
    requires p != BASE_INDEX && t != BASE_INDEX && rest < WORD_LIMIT && q < WORD_LIMIT && |mid| == |m|
    requires p + HEADER_SIZE <= |m| && t + HEADER_SIZE <= |m|
    requires Rewritten(m, base, p, HeaderAt(m, p).(size := rest), mid, base)
    requires Rewritten(mid, base, t, HeaderAt(mid, t).(size := q), m', base)
    ensures CutWritten(m, p, rest, t, q, mid, m')
  {
    hide HeaderAt, Encode;
  }

  lemma CutHeaders(m: seq<byte>, p: nat, rest: nat, t: nat, q: nat, mid: seq<byte>, m': seq<byte>, A: set<nat>, F: set<nat>)
    requires CutWritten(m, p, rest, t, q, mid, m') && p + HEADER_SIZE <= t
    requires forall a :: a in A ==> (a + HEADER_SIZE <= p || p + HEADER_SIZE <= a) && (a + HEADER_SIZE <= t || t + HEADER_SIZE <= a)
    requires p in F && t in F && p != BASE_INDEX && t != BASE_INDEX
    ensures |m'| == |m| && HeaderAt(m', t).size == q && HeaderAt(m', p) == HeaderAt(m, p).(size := rest)
    ensures SameHeaders(m, m', A) && OnlyHeaders(m, m', F)
  {
    hide HeaderAt, Encode, OnlyHeaders;
    StoredHeader(m, p, HeaderAt(m, p).(size := rest), mid);
    StoredHeader(mid, t, HeaderAt(mid, t).(size := q), m');
    OneHeader(m, p, HeaderAt(m, p).(size := rest), mid, F);
    OneHeader(mid, t, HeaderAt(mid, t).(size := q), m', F);
    TwoHeaders(m, mid, m', F);
  }

  lemma CutOk(m: seq<byte>, baseNext: nat, blocks: map<nat, nat>, live: set<nat>, end: nat, p: nat, rest: nat, t: nat, q: nat,
              mid: seq<byte>, m': seq<byte>)
    requires CutWritten(m, p, rest, t, q, mid, m')
    requires p in blocks && p !in live && 1 <= q && 1 <= rest && blocks[p] == rest + q && t == p + HEADER_SIZE * rest
    requires HeapOk(m, baseNext, blocks, live, end)
    ensures t !in blocks && HeapOk(m', baseNext, blocks[p := rest][t := q], live + {t}, end)
    ensures OnlyHeaders(m, m', FreeSet(blocks[p := rest][t := q], live))
  {
    hide HeapOk, Tiled, HeaderAt, OnlyHeaders, CutWritten;
    var blocks' := blocks[p := rest][t := q];
    TiledOf(m, baseNext, blocks, live, end);
    FirstIsNotBase(blocks, end, p);
    TiledSplit(blocks, end, p, q);
    HeadersApart(blocks', end);
    forall a | a in blocks.Keys - {p}
      ensures (a + HEADER_SIZE <= p || p + HEADER_SIZE <= a) && (a + HEADER_SIZE <= t || t + HEADER_SIZE <= a)
    {
      assert a in blocks' && p in blocks' && t in blocks' && a != t;
    }
    CutHeaders(m, p, rest, t, q, mid, m', blocks.Keys - {p}, FreeSet(blocks', live));
    SplitOk(m, baseNext, blocks, live, end, p, rest, t, q, m');
  }

  lemma StoredSize(m: seq<byte>, p: nat, d: seq<byte>, m': seq<byte>)
    requires Stored(m, p, d, m')
    ensures |m'| == |m|
  {
  }

  /** A new header at the end of the heap. */
  lemma HeaderBeyond(m: seq<byte>, baseNext: nat, blocks: map<nat, nat>, live: set<nat>, end: nat, h: Header, m': seq<byte>)
    requires HeapOk(m, baseNext, blocks, live, end) && h.Fits() && 1 <= h.size
    requires end + HEADER_SIZE * h.size <= |m| && Stored(m, end, Encode(h), m')
    ensures |m'| == |m| && HeapOk(m', baseNext, blocks[end := h.size], live + {end}, end + HEADER_SIZE * h.size)
    ensures HeaderAt(m', end) == h && OnlyHeaders(m, m', {end}) && end !in blocks
  {
    hide HeapOk, Tiled, HeaderAt, Encode, OnlyHeaders, Stored;
    TiledOf(m, baseNext, blocks, live, end);
    HeadersApart(blocks, end);
    StoredHeader(m, end, h, m');
    StoredSize(m, end, Encode(h), m');
    assert SameHeaders(m, m', blocks.Keys);
    GrowOk(m, baseNext, blocks, live, end, h.size, m');
    TiledGrow(blocks, end, h.size);
    EndIsFirst(blocks, end);
    OneHeader(m, end, h, m', {end});
  }

  lemma EndIsFirst(blocks: map<nat, nat>, end: nat)
    requires Tiled(blocks, end)
    ensures FIRST <= end
  {
  }

  lemma MoreHeaders(m: seq<byte>, m': seq<byte>, F: set<nat>, F': set<nat>)
    requires OnlyHeaders(m, m', F) && F <= F'
    ensures OnlyHeaders(m, m', F')
  {
  }

  // --- conservation ---

  ghost function Sum(blocks: map<nat, nat>, S: set<nat>): nat
    requires S <= blocks.Keys
  {
    if S == {} then 0 else var a :| a in S; blocks[a] + Sum(blocks, S - {a})
  }

  lemma {:induction false} SumOne(blocks: map<nat, nat>, S: set<nat>, a: nat)
    requires S <= blocks.Keys && a in S
    ensures Sum(blocks, S) == blocks[a] + Sum(blocks, S - {a})
    decreases |S|
  {
    var b :| b in S && Sum(blocks, S) == blocks[b] + Sum(blocks, S - {b});
    if b != a {
      SumOne(blocks, S - {b}, a);
      SumOne(blocks, S - {a}, b);
      assert S - {b} - {a} == S - {a} - {b};
    }
  }

  /** What a sum does not look at may differ. */
  lemma {:induction false} SumSame(blocks: map<nat, nat>, blocks': map<nat, nat>, S: set<nat>)
    requires S <= blocks.Keys && S <= blocks'.Keys && forall a :: a in S ==> blocks'[a] == blocks[a]
    ensures Sum(blocks', S) == Sum(blocks, S)
    decreases |S|
  {
    if S != {} {
      var a :| a in S;
      SumOne(blocks, S, a);
      SumOne(blocks', S, a);
      SumSame(blocks, blocks', S - {a});
    }
  }

  lemma {:induction false} SumSplit(blocks: map<nat, nat>, S: set<nat>, T: set<nat>)
    requires S <= blocks.Keys && T <= S
    ensures Sum(blocks, S) == Sum(blocks, T) + Sum(blocks, S - T)
    decreases |T|
  {
    if T == {} {
      assert S - T == S;
    } else {
      var a :| a in T;
      SumOne(blocks, S, a);
      SumOne(blocks, T, a);
      SumSplit(blocks, S - {a}, T - {a});
      assert S - {a} - (T - {a}) == S - T;
    }
  }

  /** Free and live units together are all the units handed out by the pool. */
  lemma {:induction false} TiledSum(blocks: map<nat, nat>, end: nat)
    requires Tiled(blocks, end)
    ensures HEADER_SIZE * Sum(blocks, blocks.Keys) == end - FIRST
    decreases |blocks|
  {
    if end == FIRST {
      assert blocks.Keys == {} by {
        forall a | a in blocks
          ensures false
        {
          FirstIsNotBase(blocks, end, a);
        }
      }
    } else {
      var a := MaxBelow(blocks.Keys, end);
      var rest := blocks - {a};
      LastTile(blocks, end, a);
      TiledSum(rest, a);
      SumOne(blocks, blocks.Keys, a);
      assert rest.Keys == blocks.Keys - {a};
      SumSame(blocks, rest, rest.Keys);
    }
  }

  lemma LastTile(blocks: map<nat, nat>, end: nat, a: nat)
    requires Tiled(blocks, end) && a in blocks && forall b :: b in blocks && b < end ==> b <= a
    ensures End(blocks, a) == end && Tiled(blocks - {a}, a)
  {
    FirstIsNotBase(blocks, end, a);
    var rest := blocks - {a};
    forall b | b in blocks
      ensures b <= a && Tile(blocks, end, b)
    {
      FirstIsNotBase(blocks, end, b);
    }
    var e := End(blocks, a);
    assert e in blocks ==> e <= a || e >= end;
    forall b | b in rest
      ensures Tile(rest, a, b)
    {
      assert Tile(blocks, end, b) && b < a && End(blocks, b) <= a;
    }
  }

  lemma EmptyTiled()
    ensures Tiled(map[], FIRST)
  {
  }

  /** One more live block adds its units, and the others keep theirs. */
  lemma OneMoreLive(blocks: map<nat, nat>, live: set<nat>, blocks': map<nat, nat>, h: nat)
    requires h !in live && h in blocks' && forall a :: a in live ==> a in blocks && a in blocks' && blocks'[a] == blocks[a]
    ensures live <= blocks.Keys && live + {h} <= blocks'.Keys
    ensures Sum(blocks', live + {h}) == Sum(blocks, live) + blocks'[h]
  {
    SumOne(blocks', live + {h}, h);
    assert live + {h} - {h} == live;
    SumSame(blocks, blocks', live);
  }

  // --- what clients do ---

  /** A store into the payload of a live block changes no header. */
  lemma PayloadStored(m: seq<byte>, baseNext: nat, blocks: map<nat, nat>, live: set<nat>, end: nat, h: nat, off: nat,
                      d: seq<byte>, m': seq<byte>)
    requires HeapOk(m, baseNext, blocks, live, end) && h in live && h in blocks
    requires HEADER_SIZE + off + |d| <= HEADER_SIZE * blocks[h] && Stored(m, h + HEADER_SIZE + off, d, m')
    ensures HeapOk(m', baseNext, blocks, live, end)
  {
    hide HeapOk, Tiled, HeaderAt;
    TiledOf(m, baseNext, blocks, live, end);
    forall a | a in blocks
      ensures a + HEADER_SIZE <= h + HEADER_SIZE || h + HEADER_SIZE * blocks[h] <= a
    {
      BlockApart(blocks, end, a, h);
    }
    SameBytesSameHeaders(m, m', blocks.Keys);
    HeapDependsOnHeaders(m, m', baseNext, blocks, live, end);
  }

  lemma BlockApart(blocks: map<nat, nat>, end: nat, a: nat, h: nat)
    requires Tiled(blocks, end) && a in blocks && h in blocks
    ensures a == h || (a + HEADER_SIZE <= End(blocks, a) <= h) || End(blocks, h) <= a
  {
    FirstIsNotBase(blocks, end, a);
  }

  lemma PayloadApart(m: seq<byte>, blocks: map<nat, nat>, live: set<nat>, end: nat, h: nat, off: nat, d: seq<byte>, m': seq<byte>, a: nat)
    requires Tiled(blocks, end) && live <= blocks.Keys && h in live && a in live && a != h
    requires HEADER_SIZE + off + |d| <= HEADER_SIZE * blocks[h] && Stored(m, h + HEADER_SIZE + off, d, m')
    ensures LiveKept(m, blocks, {a}, m', blocks)
  {
    hide Tiled;
    BlockApart(blocks, end, a, h);
  }
}
