/** The allocator of virtual memory: allocRaw, freeRaw and getMem. */
module Heap {
  import opened Layers
  import opened PageState
  import opened BaseAlloc
  import opened HeapState

  class VHeap {
    const vm: BaseVAlloc

    var baseFreeList: Header
    var freePointer: nat
    var poolFreePos: nat

    ghost var blocks: map<nat, nat>
    ghost var live: set<nat>
    ghost var end: nat

    constructor (vm: BaseVAlloc)
      requires vm.Valid() && |vm.mem| == vm.poolSize == vm.store.Length && FIRST <= vm.poolSize < WORD_LIMIT
      ensures this.vm == vm && Ready()
      ensures freePointer == 0 && poolFreePos == end == FIRST && blocks == map[] && live == {}
      ensures baseFreeList.Fits()
    {
      this.vm := vm;
      baseFreeList := Header(0, 0, [0, 0, 0, 0, 0, 0, 0, 0]);
      freePointer, poolFreePos := 0, FIRST;
      blocks, live, end := map[], {}, FIRST;
    }

    /** The memory can be read and written. */
    ghost predicate Ready()
      reads vm, vm.store, vm.smallPool, vm.mediumPool, vm.bigPool
    {
      vm.Valid() && |vm.mem| == vm.poolSize == vm.store.Length && vm.poolSize < WORD_LIMIT
    }

    lemma HeaderFits(p: nat)
      requires vm.Valid()
      ensures HEADER_SIZE <= vm.bigPool.Length1 && vm.WriteFits(p, HEADER_SIZE)
    {
      forall x | x in vm.held && p < vm.held[x].start < p + HEADER_SIZE
        ensures p + HEADER_SIZE - vm.held[x].start <= vm.PageSize(x.c)
      {
        vm.Sizes(x);
      }
    }

    method GetHeaderConst(p: nat) returns (h: Header)
      requires vm.free.big != []
      requires Ready() && (p == BASE_INDEX || (1 <= p && p + HEADER_SIZE <= |vm.mem|))
      modifies vm`info, vm`cached, vm`nextPageToSwap, vm`base, vm.store, vm.bigPool
      ensures Ready()
      ensures h == HeaderOf(vm.mem, baseFreeList, p)
    {
      hide BaseVAlloc.Valid, Slice;
      if p == BASE_INDEX {
        return baseFreeList;
      }
      HeaderFits(p);
      var x, offset := vm.Read(p, HEADER_SIZE);
      h := Decode(Slice(vm.Pool(x.c), x.i, offset, HEADER_SIZE));
    }

    method UpdateHeader(p: nat, h: Header)
      requires vm.free.big != []
      requires Ready() && h.Fits() && (p == BASE_INDEX || (1 <= p && p + HEADER_SIZE <= |vm.mem|))
      modifies this`baseFreeList, vm`info, vm`cached, vm`nextPageToSwap, vm`held, vm`counts, vm`base, vm`mem
      modifies vm.store, vm.smallPool, vm.mediumPool, vm.bigPool
      ensures Ready()
      ensures |vm.mem| == old(|vm.mem|) && Rewritten(old(vm.mem), old(baseFreeList), p, h, vm.mem, baseFreeList)
      ensures p != BASE_INDEX ==> baseFreeList == old(baseFreeList)
      ensures SameShape(old(vm.held), vm.held) && vm.counts == old(vm.counts)
    {
      hide BaseVAlloc.Valid, BaseVAlloc.WriteFits, SameShape;
      vm.SameShapeSelf(vm.held);
      if p == BASE_INDEX {
        baseFreeList := h;
      } else {
        HeaderFits(p);
        vm.Write(p, Encode(h));
      }
    }

    ghost function FreeList(): set<nat>
      reads this`blocks, this`live
    {
      FreeSet(blocks, live)
    }

    /** The header list in memory is intact, and `freePointer` is on it. */
    ghost predicate Ok()
      reads this`baseFreeList, this`freePointer, this`blocks, this`live, this`end, vm, vm.store, vm.smallPool, vm.mediumPool, vm.bigPool
    {
      && Ready() && baseFreeList.Fits() && baseFreeList.size == 0
      && HeapOk(vm.mem, baseFreeList.next, blocks, live, end)
      && freePointer in FreeList()
    }

    /** What a walk round the list knows of an element. */
    lemma ListFacts(p: nat)
      requires Ok() && p in FreeList()
      ensures Element(vm.mem, baseFreeList, blocks, FreeList(), p)
      ensures HeaderOf(vm.mem, baseFreeList, p).next in FreeList() && HeaderOf(vm.mem, baseFreeList, p).Fits()
      ensures p != BASE_INDEX ==> p !in live
    {
      hide Ready, HeapOk, Element, HeaderAt;
      ListElement(vm.mem, baseFreeList, blocks, live, end, p);
    }

    /** Walks the list to the element after which `hdrptr` belongs. */
    method FindPlace(hdrptr: nat) returns (p: nat, stath: Header)
      requires vm.free.big != []
      requires Ok() && hdrptr in live
      modifies vm`info, vm`cached, vm`nextPageToSwap, vm`base, vm.store, vm.bigPool
      ensures Ok() && p in FreeList() && (p == BASE_INDEX || p + HEADER_SIZE <= |vm.mem|)
      ensures stath == HeaderOf(vm.mem, baseFreeList, p)
      ensures p < hdrptr && (hdrptr < stath.next || stath.next <= p)
    {
      hide Ready, HeapOk, IsNext, HeaderAt;
      LiveFacts(hdrptr);
      ghost var F := FreeList();
      ghost var s := LastBelow(hdrptr);
      p := freePointer;
      ListFacts(p);
      stath := GetHeaderConst(p);
      while !(hdrptr > p && hdrptr < stath.next)
        invariant Ok() && p in F
        invariant Element(vm.mem, baseFreeList, blocks, F, p)
        invariant stath == HeaderOf(vm.mem, baseFreeList, p)
        decreases Arc(F, p, s)
      {
        if p >= stath.next && (hdrptr > p || hdrptr < stath.next) {
          break;
        }
        if p == s {
          PlaceExists(F, s, stath.next, hdrptr);
        }
        ListFacts(p);
        ArcStep(F, p, stath.next, s);
        p := stath.next;
        ListFacts(p);
        stath := GetHeaderConst(p);
      }
      ListAddresses();
      PlaceFound(F, p, stath.next, hdrptr);
    }

    /** Frees a block: threads it into the list where its address belongs. */
    method FreeRaw(ptr: nat)
      requires ptr != 0 ==> vm.free.big != []
      requires ptr == 0 || (Ok() && HEADER_SIZE <= ptr && ptr - HEADER_SIZE in live)
      modifies this`baseFreeList, this`freePointer, this`live, vm`info, vm`cached, vm`nextPageToSwap, vm`held, vm`counts, vm`base, vm`mem
      modifies vm.store, vm.smallPool, vm.mediumPool, vm.bigPool
      ensures ptr == 0 ==> unchanged(this) && unchanged(vm) && unchanged(vm.store, vm.smallPool, vm.mediumPool, vm.bigPool)
      ensures ptr != 0 ==> Ok()
      ensures live == if ptr == 0 then old(live) else old(live) - {ptr - HEADER_SIZE}
      ensures OnlyHeaders(old(vm.mem), vm.mem, FreeList())
      ensures SameShape(old(vm.held), vm.held) && vm.counts == old(vm.counts)
      ensures ptr != 0 ==> (freePointer == BASE_INDEX || freePointer + HEADER_SIZE <= |vm.mem|) &&
                           HeaderOf(vm.mem, baseFreeList, freePointer).next == ptr - HEADER_SIZE
    {
      hide Ready, HeapOk, IsNext, HeaderAt, OnlyHeaders, SameShape;
      if ptr == 0 {
        vm.SameShapeSelf(vm.held);
        NoHeaders(vm.mem, FreeList());
        return;
      }
      var hdrptr := ptr - HEADER_SIZE;
      LiveFacts(hdrptr);
      var statheader := GetHeaderConst(hdrptr);
      var p, stath := FindPlace(hdrptr);
      ListFacts(p);
      ListFacts(stath.next);
      NeverJoins(blocks, end, p, hdrptr, stath.next, stath.size);
      // neither test for an adjacent neighbour can succeed here: see NeverJoins
      if hdrptr + statheader.size == stath.next {
        assert false;
      } else {
        statheader := statheader.(next := stath.next);
      }
      Thread(p, hdrptr, stath, statheader);
    }

    /** Threads a live block into the list after `p`. */
    method Thread(p: nat, hdrptr: nat, stath: Header, statheader: Header)
      requires vm.free.big != []
      requires Ok() && hdrptr in live && p in FreeList() && p < hdrptr && hdrptr != BASE_INDEX
      requires hdrptr + HEADER_SIZE <= |vm.mem| && (p == BASE_INDEX || p + HEADER_SIZE <= |vm.mem|)
      requires stath == HeaderOf(vm.mem, baseFreeList, p)
      requires statheader == HeaderAt(vm.mem, hdrptr).(next := stath.next)
      requires (hdrptr < stath.next || stath.next <= p) && p + stath.size != hdrptr
      modifies this`baseFreeList, this`freePointer, this`live, vm`info, vm`cached, vm`nextPageToSwap, vm`held, vm`counts, vm`base, vm`mem
      modifies vm.store, vm.smallPool, vm.mediumPool, vm.bigPool
      ensures Ok()
      ensures live == old(live) - {hdrptr}
      ensures OnlyHeaders(old(vm.mem), vm.mem, FreeList())
      ensures SameShape(old(vm.held), vm.held) && vm.counts == old(vm.counts)
      ensures freePointer == p && |vm.mem| == old(|vm.mem|) && HeaderOf(vm.mem, baseFreeList, p).next == hdrptr
    {
      hide Ready, HeapOk, IsNext, HeaderAt, OnlyHeaders, Tiled, Rewritten, Encode, SameShape;
      ghost var m0, b0, h0 := vm.mem, baseFreeList, vm.held;
      LiveFacts(hdrptr);
      ListFacts(p);
      UpdateHeader(hdrptr, statheader);
      ghost var m1, h1 := vm.mem, vm.held;
      // nor can the test for an adjacent lower neighbour
      if p + stath.size == hdrptr {
        assert false;
      }
      UpdateHeader(p, stath.(next := hdrptr));
      SameShapes(h0, h1, vm.held);
      ThreadOk(m0, b0, blocks, live, end, p, hdrptr, m1, vm.mem, baseFreeList);
      freePointer := p;
      live := live - {hdrptr};
      RewrittenOnly(m0, b0, hdrptr, statheader, m1, b0, FreeList());
      RewrittenOnly(m1, b0, p, stath.(next := hdrptr), vm.mem, baseFreeList, FreeList());
      TwoHeaders(m0, m1, vm.mem, FreeList());
    }

    /** Takes units from the untouched end of the pool and frees them. */
    method GetMem(q: nat) returns (r: nat)
      requires vm.free.big != []
      requires Ok() && poolFreePos == end && 1 <= q && NoWrap(end, Grow(q), vm.poolSize)
      modifies this`baseFreeList, this`freePointer, this`poolFreePos, this`blocks, this`live, this`end
      modifies vm`info, vm`cached, vm`nextPageToSwap, vm`held, vm`counts, vm`base, vm`mem
      modifies vm.store, vm.smallPool, vm.mediumPool, vm.bigPool
      ensures Ok() && poolFreePos == end && live == old(live)
      ensures r == 0 <==> old(end) + HEADER_SIZE * q > vm.poolSize || old(end) + HEADER_SIZE * 16 > vm.poolSize
      ensures r == 0 ==> end == old(end) && blocks == old(blocks) && freePointer == old(freePointer)
      ensures r == 0 ==> baseFreeList == old(baseFreeList) && vm.mem == old(vm.mem)
      ensures r != 0 ==> r == freePointer && end == old(end) + HEADER_SIZE * (if q < 16 then 16 else q) && old(end) !in old(blocks)
      ensures r != 0 ==> blocks == old(blocks)[old(end) := if q < 16 then 16 else q] && old(end) !in live
      ensures r != 0 ==> (freePointer == BASE_INDEX || freePointer + HEADER_SIZE <= |vm.mem|) &&
                         HeaderOf(vm.mem, baseFreeList, freePointer).next == old(end)
      ensures LiveKept(old(vm.mem), old(blocks), live, vm.mem, blocks) && old(end) > BASE_INDEX
      ensures SameShape(old(vm.held), vm.held) && vm.counts == old(vm.counts)
    {
      hide Ready, HeapOk, HeaderAt, OnlyHeaders, SameShape, RoomTest, NoWrap, Grow, LiveKept;
      var size := Grow(q);
      SizeFacts();
      RoomTestRight(end, size, vm.poolSize);
      var totalsize := size * HEADER_SIZE % WORD_LIMIT;
      if RoomTest(poolFreePos, size, vm.poolSize) {
        ghost var m0, blocks0 := vm.mem, blocks;
        AddBlock(size);
        OldBlocks(m0, blocks0, live);
        poolFreePos := poolFreePos + totalsize;
        FreePointerFacts();
      } else {
        Untouched();
        vm.SameShapeSelf(vm.held);
        return 0;
      }
      return freePointer;
    }

    /** Writes the header of a new block at the end of the heap, and frees the block. */
    method AddBlock(size: nat)
      requires vm.free.big != []
      requires Ok() && poolFreePos == end && 1 <= size < WORD_LIMIT && end + HEADER_SIZE * size <= vm.poolSize
      modifies this`baseFreeList, this`freePointer, this`blocks, this`live, this`end
      modifies vm`info, vm`cached, vm`nextPageToSwap, vm`held, vm`counts, vm`base, vm`mem
      modifies vm.store, vm.smallPool, vm.mediumPool, vm.bigPool
      ensures Ok() && live == old(live) && end == old(end) + HEADER_SIZE * size
      ensures old(end) !in old(blocks) && old(end) !in live && blocks == old(blocks)[old(end) := size]
      ensures (freePointer == BASE_INDEX || freePointer + HEADER_SIZE <= |vm.mem|) &&
              HeaderOf(vm.mem, baseFreeList, freePointer).next == old(end)
      ensures OnlyHeaders(old(vm.mem), vm.mem, FreeList())
      ensures SameShape(old(vm.held), vm.held) && vm.counts == old(vm.counts)
    {
      hide Ready, HeapOk, HeaderAt, OnlyHeaders, SameShape, Encode;
      SizeFacts();
      ghost var m0, h0, l0, at := vm.mem, vm.held, live, end;
      assert |[0, 0, 0, 0, 0, 0, 0, 0]| == 8;
      var pad: seq<byte> :| |pad| == 8;  // these bytes of the header are never set
      var h := Header(0, size, pad);
      UpdateHeader(poolFreePos, h);
      ghost var m1, h1 := vm.mem, vm.held;
      HeaderBeyond(m0, baseFreeList.next, blocks, live, end, h, m1);
      blocks, live, end := blocks[end := size], live + {end}, end + HEADER_SIZE * size;
      assert live - {at} == l0;
      FreeRaw(poolFreePos + HEADER_SIZE);
      MoreHeaders(m0, m1, {at}, FreeList());
      TwoHeaders(m0, m1, vm.mem, FreeList());
      SameShapes(h0, h1, vm.held);
    }

    // --- allocating ---

    /** In memory `m` there is a heap not used yet, or one whose list is intact. */
    ghost predicate Intact(m: seq<byte>)
      reads this
    {
      && poolFreePos == end
      && if freePointer == 0 then blocks == map[] && live == {} && end == FIRST <= |m| && baseFreeList.Fits()
         else baseFreeList.Fits() && baseFreeList.size == 0 && HeapOk(m, baseFreeList.next, blocks, live, end) && freePointer in FreeList()
    }

    ghost predicate Valid()
      reads this, vm, vm.store, vm.smallPool, vm.mediumPool, vm.bigPool
    {
      Ready() && Intact(vm.mem)
    }

    /** A free block holds at least `q` units. */
    ghost predicate Available(q: nat)
      reads this`blocks, this`live
    {
      AvailableIn(blocks, live, q)
    }

    /** The list leads from `prevp` to `p`. */
    ghost predicate Follows(prevp: nat, p: nat)
      reads this`baseFreeList, vm`mem
    {
      (prevp == BASE_INDEX || prevp + HEADER_SIZE <= |vm.mem|) && HeaderOf(vm.mem, baseFreeList, prevp).next == p
    }

    /** No free block holds `q` units but for those still met on the way from `p` to `freePointer`. */
    ghost predicate NoneBehind(q: nat, p: nat)
      reads this`blocks, this`live, this`freePointer
    {
      forall a :: a in blocks && a !in live && a !in Arc(FreeList(), p, freePointer) ==> blocks[a] < q
    }

    /** The new block: `q` units that were not live, inside the pool, its address aligned. */
    ghost predicate Allocated(r: nat, q: nat, live0: set<nat>)
      reads this`blocks, this`live, this`end
    {
      && FIRST + HEADER_SIZE <= r && r % START_OFFSET == 0
      && var h := r - HEADER_SIZE;
         h !in live0 && live == live0 + {h} && h in blocks && blocks[h] == q && End(blocks, h) <= end <= vm.poolSize
    }

    /** Allocates a block: the tail of the first free one that is large enough, met from the
        successor of the one the last operation left off at, or of what the heap grows by. */
    method AllocRaw(size: nat) returns (r: nat, ghost p: nat)
      requires vm.free.big != []
      requires Valid() && 1 <= size && NoWrap(end, Grow(Units(size)), vm.poolSize)
      modifies this`baseFreeList, this`freePointer, this`poolFreePos, this`blocks, this`live, this`end
      modifies vm`info, vm`cached, vm`nextPageToSwap, vm`held, vm`counts, vm`base, vm`mem
      modifies vm.store, vm.smallPool, vm.mediumPool, vm.bigPool
      ensures Valid() && freePointer != 0
      ensures r == 0 <==> !old(Available(Units(size))) &&
                          (old(end) + HEADER_SIZE * Units(size) > vm.poolSize || old(end) + HEADER_SIZE * 16 > vm.poolSize)
      ensures r == 0 ==> blocks == old(blocks) && live == old(live) && end == old(end) && vm.mem == old(vm.mem)
      ensures r == 0 ==> freePointer == if old(freePointer) == 0 then BASE_INDEX else old(freePointer)
      ensures r != 0 ==> Allocated(r, Units(size), old(live))
      ensures r != 0 ==> Served(old(blocks), old(live), old(end), old(freePointer), Units(size), p, r - HEADER_SIZE, blocks, end, freePointer)
      ensures end == old(end) ||
              (end == old(end) + HEADER_SIZE * (if Units(size) < 16 then 16 else Units(size)) && !old(Available(Units(size))))
      ensures LiveKept(old(vm.mem), old(blocks), old(live), vm.mem, blocks)
      ensures SameShape(old(vm.held), vm.held) && vm.counts == old(vm.counts)
    {
      hide Ready, HeapOk, HeaderAt, OnlyHeaders, SameShape, Grow, Units, NoWrap, Allocated, LiveKept, Element, Available, NoneBehind, Arc, FreeSet, IsNext, FirstFit, CutOff, Follows, Choice;
      var quantity := Units(size);
      ghost var m0, blocks0, live0, end0, h0 := vm.mem, blocks, live, end, vm.held;
      var prevp := freePointer;
      if prevp == 0 {
        StartList();
        prevp := BASE_INDEX;
      }
      vm.SameShapeSelf(vm.held);
      Untouched();
      ChoiceSame(blocks);
      ghost var s := freePointer;
      var consth := GetListHeader(prevp);
      var at := consth.next;
      AllAhead(quantity, prevp, at);
      ghost var grown := false;
      while true
        invariant Ok() && poolFreePos == end && freePointer != 0 && live == live0
        invariant prevp in FreeList() && at in FreeList() && Follows(prevp, at)
        invariant SameShape(h0, vm.held) && vm.counts == old(vm.counts)
        invariant LiveKept(m0, blocks0, live0, vm.mem, blocks) && blocks == Choice(blocks0, end0, end)
        invariant !grown ==> end == end0 && vm.mem == m0 && freePointer == s && NoneBehind(quantity, at)
        invariant grown ==> at == end0 && at in blocks && blocks[at] >= quantity && at != BASE_INDEX
        invariant grown ==> end == end0 + HEADER_SIZE * (if quantity < 16 then 16 else quantity) <= vm.poolSize && !old(Available(quantity))
        decreases if grown then 0 else 1, Arc(FreeList(), at, freePointer)
      {
        consth := GetListHeader(at);
        if consth.size >= quantity {
          p := at;
          IsAvailable(quantity, p);
          if !grown {
            IsFirstFit(quantity, p);
          }
          r := Take(prevp, at, consth, quantity, m0, blocks0, h0);
          return;
        } else if at == freePointer {
          NoneAnywhere(quantity);
          at := Extend(quantity, m0, h0);
          if at == 0 {
            return 0, 0;
          }
          consth := GetListHeader(at);
          OneFollows(at, consth.next, end0);
          grown := true;
        } else {
          Onward(quantity, at, consth.next);
        }
        prevp := at;
        at := consth.next;
      }
    }

    /** Lets the heap grow by a free block, if the pool has room. */
    method Extend(quantity: nat, ghost m0: seq<byte>, ghost h0: map<Pid, Window>) returns (at: nat)
      requires vm.free.big != []
      requires Ok() && poolFreePos == end && 1 <= quantity && NoWrap(end, Grow(quantity), vm.poolSize) && freePointer != 0
      requires LiveKept(m0, blocks, live, vm.mem, blocks) && SameShape(h0, vm.held)
      modifies this`baseFreeList, this`freePointer, this`poolFreePos, this`blocks, this`live, this`end
      modifies vm`info, vm`cached, vm`nextPageToSwap, vm`held, vm`counts, vm`base, vm`mem
      modifies vm.store, vm.smallPool, vm.mediumPool, vm.bigPool
      ensures Ok() && poolFreePos == end && live == old(live) && freePointer != 0
      ensures at == 0 <==> old(end) + HEADER_SIZE * quantity > vm.poolSize || old(end) + HEADER_SIZE * 16 > vm.poolSize
      ensures at == 0 ==> end == old(end) && freePointer == old(freePointer) && vm.mem == old(vm.mem)
      ensures at != 0 ==> at == freePointer && end == old(end) + HEADER_SIZE * (if quantity < 16 then 16 else quantity)
      ensures at != 0 ==> old(end) in blocks && blocks[old(end)] >= quantity && old(end) > BASE_INDEX
      ensures blocks == Choice(old(blocks), old(end), end)
      ensures at != 0 ==> Follows(at, old(end)) && at in FreeList() && old(end) in FreeList()
      ensures LiveKept(m0, old(blocks), live, vm.mem, blocks)
      ensures SameShape(h0, vm.held) && vm.counts == old(vm.counts)
    {
      hide Ready, HeapOk, HeaderAt, SameShape, Grow, NoWrap, LiveKept, Choice;
      ghost var m1, blocks1, h1, end1 := vm.mem, blocks, vm.held, end;
      ChoiceSame(blocks);
      at := GetMem(quantity);
      LiveThrough(m0, blocks1, live, m1, blocks1, vm.mem, blocks);
      SameShapes(h0, h1, vm.held);
      ChoiceGrown(blocks1, end1, if quantity < 16 then 16 else quantity);
      if at != 0 {
        FreePointerFacts();
        ListFacts(freePointer);
      }
    }

    lemma OneFollows(p: nat, q: nat, q': nat)
      requires Follows(p, q) && Follows(p, q')
      ensures q == q'
    {
    }

    lemma ChoiceSame(blocks0: map<nat, nat>)
      ensures Choice(blocks0, end, end) == blocks0
    {
    }

    lemma ChoiceGrown(blocks0: map<nat, nat>, end0: nat, u: nat)
      ensures end == end0 + HEADER_SIZE * u && u > 0 ==> Choice(blocks0, end0, end) == blocks0[end0 := u]
    {
    }

    lemma IsFirstFit(q: nat, p: nat)
      requires p in blocks && p !in live && blocks[p] >= q && NoneBehind(q, p)
      ensures FirstFit(blocks, live, freePointer, q, p)
    {
      hide Arc;
    }

    /** The first use of the list: the outside header alone, pointing at itself. */
    method StartList()
      requires Valid() && freePointer == 0
      modifies this`baseFreeList, this`freePointer
      ensures Ok() && freePointer == BASE_INDEX
    {
      hide BaseVAlloc.Valid, HeapOk;
      baseFreeList := baseFreeList.(next := BASE_INDEX, size := 0);
      freePointer := BASE_INDEX;
      SingletonList(vm.mem, BASE_INDEX);
    }

    /** The header of an element of the list. */
    method GetListHeader(p: nat) returns (h: Header)
      requires vm.free.big != []
      requires Ok() && p in FreeList()
      modifies vm`info, vm`cached, vm`nextPageToSwap, vm`base, vm.store, vm.bigPool
      ensures Ok() && Follows(p, h.next) && h == HeaderOf(vm.mem, baseFreeList, p) && h.next in FreeList()
      ensures p == BASE_INDEX ==> h.size == 0
      ensures p != BASE_INDEX ==> p in blocks && p !in live && h.size == blocks[p] && p + HEADER_SIZE <= |vm.mem| && p >= FIRST
    {
      hide Ready, HeapOk, HeaderAt, IsNext;
      ListFacts(p);
      h := GetHeaderConst(p);
    }

    /** Takes a block off the list, or cuts the tail off it. */
    method Take(prevp: nat, p: nat, consth: Header, quantity: nat, ghost m0: seq<byte>, ghost blocks0: map<nat, nat>, ghost h0: map<Pid, Window>) returns (r: nat)
      requires vm.free.big != []
      requires Ok() && prevp in FreeList() && p in FreeList() && Follows(prevp, p) && p != BASE_INDEX
      requires p + HEADER_SIZE <= |vm.mem| && consth == HeaderAt(vm.mem, p)
      requires p in blocks && p !in live && 2 <= quantity <= blocks[p] == consth.size
      requires LiveKept(m0, blocks0, live, vm.mem, blocks) && SameShape(h0, vm.held)
      modifies this`baseFreeList, this`freePointer, this`blocks, this`live
      modifies vm`info, vm`cached, vm`nextPageToSwap, vm`held, vm`counts, vm`base, vm`mem
      modifies vm.store, vm.smallPool, vm.mediumPool, vm.bigPool
      ensures Ok() && freePointer == prevp != 0 && r >= HEADER_SIZE > 0
      ensures Allocated(r, quantity, old(live))
      ensures CutOff(old(blocks), p, quantity, r - HEADER_SIZE, blocks) && IsNext(FreeSet(old(blocks), old(live)), freePointer, p)
      ensures LiveKept(m0, blocks0, old(live), vm.mem, blocks)
      ensures SameShape(h0, vm.held) && vm.counts == old(vm.counts)
    {
      hide Ready, HeapOk, HeaderAt, OnlyHeaders, SameShape, Allocated, LiveKept, IsNext, CutOff;
      ghost var m1, blocks1, live1, h1 := vm.mem, blocks, live, vm.held;
      ListFacts(prevp);
      var at := p;
      if consth.size == quantity {
        AllOf(p, quantity);
        TakeWhole(prevp, p, quantity, consth.next);
      } else {
        at := TakeTail(p, consth, quantity);
      }
      freePointer := prevp;
      FreePointerFacts();
      LiveThrough(m0, blocks0, live1, m1, blocks1, vm.mem, blocks);
      SameShapes(h0, h1, vm.held);
      r := at + HEADER_SIZE;
    }

    lemma AllOf(p: nat, q: nat)
      requires p in blocks && blocks[p] == q
      ensures CutOff(blocks, p, q, p, blocks)
    {
    }

    /** Unlinks a block: its predecessor is made to point past it. */
    method TakeWhole(prevp: nat, p: nat, ghost q: nat, next: nat)
      requires vm.free.big != []
      requires Ok() && prevp in FreeList() && p in FreeList() && Follows(prevp, p) && p != BASE_INDEX
      requires p + HEADER_SIZE <= |vm.mem| && next == HeaderAt(vm.mem, p).next
      requires p in blocks && p !in live && blocks[p] == q
      modifies this`baseFreeList, this`freePointer, this`live
      modifies vm`info, vm`cached, vm`nextPageToSwap, vm`held, vm`counts, vm`base, vm`mem
      modifies vm.store, vm.smallPool, vm.mediumPool, vm.bigPool
      ensures Ok() && freePointer == prevp
      ensures Allocated(p + HEADER_SIZE, q, old(live))
      ensures LiveKept(old(vm.mem), old(blocks), old(live), vm.mem, blocks)
      ensures SameShape(old(vm.held), vm.held) && vm.counts == old(vm.counts)
    {
      hide Ready, HeapOk, HeaderAt, OnlyHeaders, SameShape, Rewritten, LiveKept, Allocated, IsNext, Encode;
      ghost var m0, b0, F := vm.mem, baseFreeList, FreeList();
      SizeFacts();
      var prevh := GetListHeader(prevp);
      prevh := prevh.(next := next);
      UpdateHeader(prevp, prevh);
      UnlinkOk(m0, b0, blocks, live, end, prevp, p, vm.mem, baseFreeList);
      RewrittenOnly(m0, b0, prevp, prevh, vm.mem, baseFreeList, F);
      ghost var live0 := live;
      live := live + {p};
      freePointer := prevp;
      NewBlock(p, live0);
      OldBlocks(m0, blocks, live0);
    }

    lemma IsAvailable(q: nat, p: nat)
      requires p in blocks && p !in live && blocks[p] >= q
      ensures Available(q)
    {
    }

    lemma Untouched()
      requires Ok()
      ensures LiveKept(vm.mem, blocks, live, vm.mem, blocks)
    {
      hide Ready, HeapOk;
      SizeFacts();
    }

    lemma OldBlocks(m0: seq<byte>, blocks0: map<nat, nat>, live0: set<nat>)
      requires Ok() && OnlyHeaders(m0, vm.mem, FreeSet(blocks, live0)) && live0 <= live
      requires forall a :: a in live0 ==> a in blocks0 && a in blocks && blocks[a] == blocks0[a]
      ensures LiveKept(m0, blocks0, live0, vm.mem, blocks)
    {
      hide Ready, HeapOk, OnlyHeaders, Tiled;
      TiledOf(vm.mem, baseFreeList.next, blocks, live, end);
      LiveUntouched(m0, vm.mem, blocks, live0, end, FreeSet(blocks, live0));
      forall a, k | a in live0 && a in blocks0 && a <= k < End(blocks0, a) && k < |m0|
        ensures vm.mem[k] == m0[k]
      {
        assert a in blocks && k < End(blocks, a);
      }
    }

    lemma NewBlock(h: nat, live0: set<nat>)
      requires Ok() && h in blocks && h !in live0 && live == live0 + {h}
      ensures Allocated(h + HEADER_SIZE, blocks[h], live0)
    {
      hide Ready, HeapOk, Tiled;
      SizeFacts();
      TiledOf(vm.mem, baseFreeList.next, blocks, live, end);
      FirstIsNotBase(blocks, end, h);
    }

    lemma BlockFacts(p: nat)
      requires Ok() && p in blocks
      ensures FIRST <= p && End(blocks, p) <= end && end <= |vm.mem| == vm.poolSize
    {
      hide Ready, HeapOk, Tiled;
      SizeFacts();
      TiledOf(vm.mem, baseFreeList.next, blocks, live, end);
      FirstIsNotBase(blocks, end, p);
    }

    lemma AllAhead(q: nat, prevp: nat, p: nat)
      requires Ok() && prevp == freePointer && Follows(prevp, p)
      ensures NoneBehind(q, p)
    {
      hide Ready, HeapOk, IsNext, HeaderAt, Arc;
      ListFacts(prevp);
      ArcAll(FreeList(), prevp, p);
    }

    lemma NoneAnywhere(q: nat)
      requires Ok() && NoneBehind(q, freePointer) && (freePointer == BASE_INDEX || (freePointer in blocks && blocks[freePointer] < q))
      ensures !Available(q)
    {
      hide Ready, HeapOk;
      forall a | a in blocks && a !in live
        ensures blocks[a] < q
      {
        BlockFacts(a);
      }
    }

    lemma Onward(q: nat, p: nat, next: nat)
      requires Ok() && NoneBehind(q, p) && p in FreeList() && p != freePointer && Follows(p, next)
      requires p == BASE_INDEX || (p in blocks && blocks[p] < q)
      ensures NoneBehind(q, next)
      ensures p in Arc(FreeList(), p, freePointer) && Arc(FreeList(), next, freePointer) == Arc(FreeList(), p, freePointer) - {p}
    {
      hide Ready, HeapOk, IsNext, HeaderAt, Arc;
      ListFacts(p);
      ArcStep(FreeList(), p, next, freePointer);
      forall a | a in blocks && a !in live && a !in Arc(FreeList(), next, freePointer)
        ensures blocks[a] < q
      {
        BlockFacts(a);
        assert a == p || a !in Arc(FreeList(), p, freePointer);
      }
    }

    /** Cuts `quantity` units off the end of a block. */
    method TakeTail(p: nat, consth: Header, quantity: nat) returns (t: nat)
      requires vm.free.big != []
      requires Ok() && p in FreeList() && p != BASE_INDEX
      requires p + HEADER_SIZE <= |vm.mem| && consth == HeaderAt(vm.mem, p)
      requires p in blocks && p !in live && 2 <= quantity < blocks[p] == consth.size
      modifies this`baseFreeList, this`blocks, this`live
      modifies vm`info, vm`cached, vm`nextPageToSwap, vm`held, vm`counts, vm`base, vm`mem
      modifies vm.store, vm.smallPool, vm.mediumPool, vm.bigPool
      ensures Ok() && FreeList() == old(FreeList())
      ensures Allocated(t + HEADER_SIZE, quantity, old(live)) && CutOff(old(blocks), p, quantity, t, blocks)
      ensures LiveKept(old(vm.mem), old(blocks), old(live), vm.mem, blocks)
      ensures SameShape(old(vm.held), vm.held) && vm.counts == old(vm.counts)
    {
      hide Ready, HeapOk, HeaderAt, OnlyHeaders, SameShape, LiveKept, Allocated, IsNext, CutWritten;
      ghost var m0, blocks0, live0, h0 := vm.mem, blocks, live, vm.held;
      SizeFacts();
      BlockFacts(p);
      var rest := consth.size - quantity;
      UpdateHeader(p, consth.(size := rest));
      ghost var m1, h1 := vm.mem, vm.held;
      t := p + rest * HEADER_SIZE;
      var h := GetHeaderConst(t);
      UpdateHeader(t, h.(size := quantity));
      CutIsWritten(m0, baseFreeList, p, rest, t, quantity, m1, vm.mem);
      CutOk(m0, baseFreeList.next, blocks, live, end, p, rest, t, quantity, m1, vm.mem);
      blocks, live := blocks[p := rest][t := quantity], live + {t};
      SameShapes(h0, h1, vm.held);
      NewBlock(t, live0);
      OldBlocks(m0, blocks0, live0);
    }

    /** Frees a live block: the other live blocks stay, and the total is kept. */
    method Free(ptr: nat)
      requires ptr != 0 ==> vm.free.big != []
      requires Valid() && (ptr == 0 || (HEADER_SIZE <= ptr && ptr - HEADER_SIZE in live))
      modifies this`baseFreeList, this`freePointer, this`live
      modifies vm`info, vm`cached, vm`nextPageToSwap, vm`held, vm`counts, vm`base, vm`mem
      modifies vm.store, vm.smallPool, vm.mediumPool, vm.bigPool
      ensures Valid()
      ensures live == if ptr == 0 then old(live) else old(live) - {ptr - HEADER_SIZE}
      ensures ptr != 0 ==> LiveKept(old(vm.mem), blocks, live, vm.mem, blocks)
      ensures ptr != 0 ==> freePointer != 0 && IsNext(FreeList(), freePointer, ptr - HEADER_SIZE)
      ensures ptr == 0 ==> vm.mem == old(vm.mem) && freePointer == old(freePointer)
      ensures SameShape(old(vm.held), vm.held) && vm.counts == old(vm.counts)
    {
      hide Ready, HeapOk, SameShape, LiveKept, OnlyHeaders, IsNext, HeaderAt;
      ghost var m0 := vm.mem;
      FreeRaw(ptr);
      if ptr != 0 {
        FreePointerFacts();
        ListFacts(freePointer);
        BlocksKnown();
        OldBlocks(m0, blocks, live);
      }
    }

    lemma BlocksKnown()
      requires Ok()
      ensures live <= blocks.Keys
    {
      hide Ready, HeapOk;
      SizeFacts();
    }

    /** A client's write into a live block: no header moves, and no other block changes. */
    method WriteBlock(h: nat, off: nat, d: seq<byte>)
      requires vm.free.big != []
      requires Valid() && h in live && h in blocks && HEADER_SIZE + off + |d| <= HEADER_SIZE * blocks[h]
      requires 1 <= |d| <= vm.bigPool.Length1 && vm.WriteFits(h + HEADER_SIZE + off, |d|)
      modifies vm`info, vm`cached, vm`nextPageToSwap, vm`held, vm`counts, vm`base, vm`mem
      modifies vm.store, vm.smallPool, vm.mediumPool, vm.bigPool
      ensures Valid()
      ensures Stored(old(vm.mem), h + HEADER_SIZE + off, d, vm.mem)
      ensures forall a :: a in live && a != h ==> LiveKept(old(vm.mem), blocks, {a}, vm.mem, blocks)
      ensures SameShape(old(vm.held), vm.held) && vm.counts == old(vm.counts)
    {
      hide HeapOk, SameShape, BaseVAlloc.Valid, BaseVAlloc.WriteFits, Stored;
      BlockFacts(h);
      ghost var m0 := vm.mem;
      vm.Write(h + HEADER_SIZE + off, d);
      StoredSize(m0, h + HEADER_SIZE + off, d, vm.mem);
      BlockStored(m0, h, off, d);
    }

    /** A client's read from a live block. */
    method ReadBlock(h: nat, off: nat, n: nat) returns (d: seq<byte>)
      requires vm.free.big != []
      requires Valid() && h in live && h in blocks && HEADER_SIZE + off + n <= HEADER_SIZE * blocks[h] && 1 <= n <= vm.bigPool.Length1
      modifies vm`info, vm`cached, vm`nextPageToSwap, vm`base, vm.store, vm.bigPool
      ensures Valid()
      ensures h + HEADER_SIZE + off + n <= |vm.mem| && d == vm.mem[h + HEADER_SIZE + off..h + HEADER_SIZE + off + n]
    {
      hide HeapOk, BaseVAlloc.Valid, Slice;
      BlockFacts(h);
      var x, offset := vm.Read(h + HEADER_SIZE + off, n);
      d := Slice(vm.Pool(x.c), x.i, offset, n);
    }

    /** A store into a live block, however it is made, leaves the heap and the other blocks as they were. */
    lemma BlockStored(m0: seq<byte>, h: nat, off: nat, d: seq<byte>)
      requires Intact(m0) && h in live && h in blocks && HEADER_SIZE + off + |d| <= HEADER_SIZE * blocks[h]
      requires Stored(m0, h + HEADER_SIZE + off, d, vm.mem)
      ensures Intact(vm.mem)
      ensures forall a :: a in live && a != h ==> LiveKept(m0, blocks, {a}, vm.mem, blocks)
    {
      hide HeapOk, Tiled, Stored;
      TiledOf(m0, baseFreeList.next, blocks, live, end);
      StoredSize(m0, h + HEADER_SIZE + off, d, vm.mem);
      PayloadStored(m0, baseFreeList.next, blocks, live, end, h, off, d, vm.mem);
      forall a | a in live && a != h
        ensures LiveKept(m0, blocks, {a}, vm.mem, blocks)
      {
        PayloadApart(m0, blocks, live, end, h, off, d, vm.mem, a);
      }
    }

    ghost function LiveUnits(): nat
      requires live <= blocks.Keys
      reads this`blocks, this`live
    {
      Sum(blocks, live)
    }

    ghost function FreeUnits(): nat
      reads this`blocks, this`live
    {
      Sum(blocks, blocks.Keys - live)
    }

    /** Free and live units together are what getMem has taken from the pool. */
    lemma UnitsConserved()
      requires Valid()
      ensures live <= blocks.Keys && HEADER_SIZE * (LiveUnits() + FreeUnits()) == end - FIRST
    {
      hide Ready, HeapOk, Tiled;
      if freePointer == 0 {
        EmptyTiled();
      } else {
        BlocksKnown();
        TiledOf(vm.mem, baseFreeList.next, blocks, live, end);
      }
      TiledSum(blocks, end);
      SumSplit(blocks, blocks.Keys, live);
    }

    lemma SizeFacts()
      requires Ok()
      ensures |vm.mem| == vm.poolSize < WORD_LIMIT && FIRST <= end <= |vm.mem| && live <= blocks.Keys
    {
      hide HeapOk, BaseVAlloc.Valid;
      TiledOf(vm.mem, baseFreeList.next, blocks, live, end);
    }

    lemma FreePointerFacts()
      requires Ok()
      ensures freePointer >= BASE_INDEX
    {
      hide Ready, HeapOk;
      ListFacts(freePointer);
    }

    lemma LiveFacts(h: nat)
      requires Ok() && h in live
      ensures h in blocks && FIRST <= h && h + HEADER_SIZE <= |vm.mem| <= WORD_LIMIT && h !in FreeList()
      ensures HeaderAt(vm.mem, h).size == blocks[h]
      ensures Tiled(blocks, end)
    {
      hide HeapOk, HeaderAt, BaseVAlloc.Valid;
      LiveElement(vm.mem, baseFreeList.next, blocks, live, end, h);
      TiledOf(vm.mem, baseFreeList.next, blocks, live, end);
    }

    lemma LastBelow(h: nat) returns (s: nat)
      requires Ok() && h > BASE_INDEX
      ensures s in FreeList() && s < h && forall f :: f in FreeList() && f < h ==> f <= s
    {
      hide Ready, HeapOk;
      assert BASE_INDEX in FreeList();
      s := MaxBelow(FreeList(), h);
    }

    lemma ListAddresses()
      requires Ok()
      ensures BASE_INDEX in FreeList() && forall f :: f in FreeList() ==> f >= BASE_INDEX
    {
      hide Ready, HeapOk, HeaderAt, IsNext;
      forall f | f in FreeList()
        ensures f >= BASE_INDEX
      {
        ListFacts(f);
      }
    }
  }
}
