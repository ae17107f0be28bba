/** What the operations promise: placement, contents, and that freeing undoes allocating. */
module HeapLaws {
  import opened Bytes
  import opened FreeList
  import opened HeapModel

  /** `n` consecutive bytes from `x` on are in the active half and free. */
  ghost predicate Fits(h: Heap, x: nat, n: nat) {
    h.base <= x && x + n <= h.base + h.size && forall y :: x <= y < x + n ==> !Taken(h.live, y)
  }

  ghost predicate IsLowestFit(h: Heap, x: nat, n: nat) {
    Fits(h, x, n) && forall y :: Fits(h, y, n) ==> x <= y
  }

  /** The block first fit chooses is where the lowest run of free bytes starts. */
  lemma {:induction false} FirstFitMeansLowestFit(h: Heap, n: nat)
    requires Ok(h) && n > 0
    ensures var i := FirstFit(h.frees, n);
            if i < |h.frees| then IsLowestFit(h, h.frees[i].begin, n) else forall x: nat :: !Fits(h, x, n)
  {
    var i := FirstFit(h.frees, n);
    forall x: nat | Fits(h, x, n) ensures i < |h.frees| && h.frees[i].begin <= x {
      assert forall y :: x <= y < x + n ==> Covers(h.frees, y);
      FirstFitIsLowest(h.frees, h.base, h.base + h.size, x, n);
    }
    if i < |h.frees| {
      var b := h.frees[i];
      InBounds(h.frees, i, h.base, h.base + h.size);
      forall y | b.begin <= y < b.begin + n ensures !Taken(h.live, y) {
        BlockIsCovered(h.frees, i, y);
      }
    }
  }

  /** `alloc(n)` takes the lowest run of `n` free bytes; it fails exactly when there is none. */
  lemma {:induction false} AllocIsLowestFit(h: Heap, n: nat)
    requires Ok(h) && n > 0
    ensures var r := Alloc(h, n);
            && (r.outcome == NoMemory <==> forall x: nat :: !Fits(h, x, n))
            && (r.outcome == NoMemory ==> r.heap == h && r.p == Null)
            && (r.outcome != NoMemory ==>
                  && r.outcome == Done && r.p == Handle(h.next) && h.next !in h.live
                  && h.next in r.heap.live && r.heap.live[h.next].size == n
                  && IsLowestFit(h, r.heap.live[h.next].begin, n)
                  && r.heap.live - {h.next} == h.live && r.heap.mem == h.mem)
  {
    FirstFitMeansLowestFit(h, n);
    var i := FirstFit(h.frees, n);
    if i < |h.frees| {
      assert Fits(h, h.frees[i].begin, n);
      assert h.live[h.next := Block(h.frees[i].begin, n)] - {h.next} == h.live;
    }
  }

  /** Freeing what was just allocated restores the whole allocator but for the handle counter. */
  lemma {:induction false} FreeUndoesAlloc(h: Heap, n: nat)
    requires Ok(h) && Alloc(h, n).p.Handle?
    ensures var r := Alloc(h, n);
            Free(r.heap, r.p) == Result(h.(next := h.next + 1), Null, Done)
  {
    NextIsNew(h);
    PartOfList(h, n);
  }

  lemma {:induction false} NextIsNew(h: Heap)
    requires Ok(h)
    ensures h.next !in h.live && Spaced(h.frees, h.base, h.base + h.size)
  {
  }

  lemma {:induction false} PartOfList(h: Heap, n: nat)
    requires h.next !in h.live && Spaced(h.frees, h.base, h.base + h.size) && Alloc(h, n).p.Handle?
    ensures var r := Alloc(h, n);
            Free(r.heap, r.p) == Result(h.(next := h.next + 1), Null, Done)
  {
    var i := FirstFit(h.frees, n);
    SplitThenRelease(h.frees, i, n, h.base, h.base + h.size);
    GiveBack(h, Split(h.frees, i, n), Block(h.frees[i].begin, n));
  }

  lemma {:induction false} GiveBack(h: Heap, frees: seq<Block>, b: Block)
    requires h.next !in h.live && Release(frees, b) == h.frees
    ensures Free(h.(frees := frees, live := h.live[h.next := b], next := h.next + 1), Handle(h.next))
         == Result(h.(next := h.next + 1), Null, Done)
  {
    assert h.live[h.next := b] - {h.next} == h.live;
  }

  /** The free list is determined by the live blocks, up to an empty block at the end. */
  lemma {:induction false} FreeListIsCanonical(h: Heap, g: Heap)
    requires Ok(h) && Ok(g) && h.base == g.base && h.size == g.size
    requires forall x: nat :: Taken(h.live, x) <==> Taken(g.live, x)
    ensures Trim(h.frees) == Trim(g.frees)
  {
    Canonical(h.frees, g.frees, h.base, h.base + h.size);
  }

  /** With no live blocks, however they were freed, one block covers the whole half. */
  lemma {:induction false} AllFreed(h: Heap)
    requires Ok(h) && h.live == map[] && h.size > 0
    ensures h.frees == [Block(h.base, h.size)]
  {
    var whole := [Block(h.base, h.size)];
    var hi := h.base + h.size;
    assert Spaced(whole[1..], hi + 1, hi);
    forall x: nat ensures Covers(h.frees, x) <==> Covers(whole, x) {
      assert !Taken(h.live, x);
      assert !Covers(whole[1..], x);
    }
    Canonical(h.frees, whole, h.base, hi);
    if |h.frees| > 1 {
      InOrder(h.frees, 0, 1, h.base, hi);
      InBounds(h.frees, 1, h.base, hi);
      assert false;
    }
  }

  /** The bytes of a block that lies in the buffer. */
  function Shows(mem: seq<byte>, b: Block): seq<byte> {
    if b.End() <= |mem| then mem[b.begin..b.End()] else []
  }

  ghost function ViewOf(mem: seq<byte>, live: map<nat, Block>): map<nat, seq<byte>> {
    map id | id in live :: Shows(mem, live[id])
  }

  /** What every handle shows: the contents of all live blocks. */
  ghost function View(h: Heap): map<nat, seq<byte>> {
    ViewOf(h.mem, h.live)
  }

  lemma {:induction false} LiveInBuffer(h: Heap, id: nat)
    requires Ok(h) && id in h.live
    ensures h.live[id].End() <= |h.mem|
    ensures h.live[id].End() <= h.spare || h.spare + h.spareSize <= h.live[id].begin
    ensures |View(h)[id]| == h.live[id].size
  {
  }

  lemma {:induction false} ViewWithout(mem: seq<byte>, live: map<nat, Block>, id: nat)
    ensures ViewOf(mem, live - {id}) == ViewOf(mem, live) - {id}
  {
  }

  lemma {:induction false} ViewWith(mem: seq<byte>, live: map<nat, Block>, id: nat, b: Block)
    requires id !in live
    ensures ViewOf(mem, live[id := b]) - {id} == ViewOf(mem, live)
  {
  }

  /** Copying to a place apart from a block keeps its bytes. */
  lemma {:induction false} CopyElsewhere(mem: seq<byte>, dst: nat, src: nat, n: nat, b: Block)
    requires dst + n <= |mem| && src + n <= |mem| && b.End() <= |mem|
    requires Apart(Block(dst, n), b)
    ensures CopyBytes(mem, dst, src, n)[b.begin..b.End()] == mem[b.begin..b.End()]
  {
    var r := CopyBytes(mem, dst, src, n);
    forall k | b.begin <= k < b.End() ensures r[k] == mem[k] {
    }
  }

  lemma {:induction false} CopyArrives(mem: seq<byte>, dst: nat, src: nat, n: nat)
    requires dst + n <= |mem| && src + n <= |mem|
    ensures CopyBytes(mem, dst, src, n)[dst..dst + n] == mem[src..src + n]
  {
  }

  /** Copying to a place apart from all blocks changes nothing that is shown. */
  lemma {:induction false} CopyKeepsView(mem: seq<byte>, live: map<nat, Block>, dst: nat, src: nat, n: nat)
    requires dst + n <= |mem| && src + n <= |mem|
    requires forall id :: id in live ==> live[id].End() <= |mem| && Apart(Block(dst, n), live[id])
    ensures ViewOf(CopyBytes(mem, dst, src, n), live) == ViewOf(mem, live)
  {
    forall id | id in live
      ensures Shows(CopyBytes(mem, dst, src, n), live[id]) == Shows(mem, live[id])
    {
      CopyElsewhere(mem, dst, src, n, live[id]);
    }
  }

  /** `alloc` changes no byte that a handle shows, and adds at most its own handle. */
  lemma {:induction false} AllocKeepsView(h: Heap, n: nat)
    requires Ok(h)
    ensures var r := Alloc(h, n);
            && Ok(r.heap) && View(r.heap) - {h.next} == View(h)
            && (r.p == Handle(h.next) || (r.p == Null && r.heap == h))
            && (r.p == Handle(h.next) ==> h.next in View(r.heap) && |View(r.heap)[h.next]| == n)
            && (n == 0 ==> r == Result(h, Null, Done))
  {
    AllocKeepsOk(h, n);
    NextIsNew(h);
    var r := Alloc(h, n);
    if r.p.Handle? {
      ViewWith(h.mem, h.live, h.next, r.heap.live[h.next]);
      LiveInBuffer(r.heap, h.next);
    } else {
      assert View(h) - {h.next} == View(h);
    }
  }

  /** `free` removes its handle, which becomes null, and changes no byte of the buffer; without a block behind the
      handle it does nothing at all. */
  lemma {:induction false} FreeKeepsView(h: Heap, p: Pointer)
    requires Ok(h)
    ensures var r := Free(h, p);
            && Ok(r.heap) && r.outcome == Done
            && View(r.heap) == (if Points(h, p) then View(h) - {p.id} else View(h))
            && !Points(r.heap, r.p)
            && r.heap.mem == h.mem && r.heap.next == h.next
            && (Points(h, p) ==> r.p == Null && r.heap.live == h.live - {p.id})
            && (!Points(h, p) ==> r.heap == h && r.p == p)
  {
    FreeKeepsOk(h, p);
    if Points(h, p) {
      ViewWithout(h.mem, h.live, p.id);
    }
  }

  /** The spare half is apart from all live blocks. */
  lemma {:induction false} SpareIsApart(h: Heap, n: nat)
    requires Ok(h) && n <= h.spareSize
    ensures h.spare + n <= |h.mem|
    ensures forall id :: id in h.live ==> h.live[id].End() <= |h.mem| && Apart(Block(h.spare, n), h.live[id])
  {
  }

  /** Live blocks are apart from each other. */
  lemma {:induction false} BlockIsApart(h: Heap, id: nat, n: nat)
    requires Ok(h) && id in h.live && n <= h.live[id].size
    ensures forall k :: k in h.live - {id} ==>
              h.live[k].End() <= |h.mem| && Apart(Block(h.live[id].begin, n), h.live[k])
  {
    forall k | k in h.live - {id}
      ensures h.live[k].End() <= |h.mem| && Apart(Block(h.live[id].begin, n), h.live[k])
    {
      assert Apart(h.live[id], h.live[k]);
    }
  }

  lemma {:induction false} CopyOutOfBlock(mem: seq<byte>, live: map<nat, Block>, id: nat, dst: nat)
    requires id in live && dst + live[id].size <= |mem| && live[id].End() <= |mem|
    requires forall k :: k in live ==> live[k].End() <= |mem| && Apart(Block(dst, live[id].size), live[k])
    ensures var mem' := CopyBytes(mem, dst, live[id].begin, live[id].size);
            ViewOf(mem', live) == ViewOf(mem, live) && mem'[dst..dst + live[id].size] == ViewOf(mem, live)[id]
  {
    CopyKeepsView(mem, live, dst, live[id].begin, live[id].size);
    CopyArrives(mem, dst, live[id].begin, live[id].size);
  }

  /** Saving a block in the spare half changes no byte that a handle shows. */
  lemma {:induction false} SaveKeepsView(h: Heap, id: nat)
    requires Ok(h) && id in h.live && h.live[id].size <= h.spareSize
    ensures var b := h.live[id];
            var saved := h.(mem := CopyBytes(h.mem, h.spare, b.begin, b.size));
            && Ok(saved) && View(saved) == View(h)
            && saved.mem[h.spare..h.spare + b.size] == View(h)[id]
  {
    SpareIsApart(h, h.live[id].size);
    SavedIsOk(h, h.live[id].begin, h.live[id].size);
    CopyOutOfBlock(h.mem, h.live, id, h.spare);
  }

  /** Copying bytes into block `id` shows them there and nowhere else. */
  lemma {:induction false} CopyIntoBlock(mem: seq<byte>, live: map<nat, Block>, id: nat, src: nat, m: nat)
    requires id in live && live[id].End() <= |mem| && m <= live[id].size && src + m <= |mem|
    requires forall k :: k in live - {id} ==> live[k].End() <= |mem| && Apart(Block(live[id].begin, m), live[k])
    ensures var mem' := CopyBytes(mem, live[id].begin, src, m);
            && ViewOf(mem', live) - {id} == ViewOf(mem, live) - {id}
            && |ViewOf(mem', live)[id]| == live[id].size && ViewOf(mem', live)[id][..m] == mem[src..src + m]
  {
    var b := live[id];
    var mem' := CopyBytes(mem, b.begin, src, m);
    ViewWithout(mem, live, id);
    ViewWithout(mem', live, id);
    CopyKeepsView(mem, live - {id}, b.begin, src, m);
    CopyArrives(mem, b.begin, src, m);
    PrefixOfSlice(mem', b.begin, m, b.size);
  }

  lemma {:induction false} PrefixOfSlice(mem: seq<byte>, from: nat, m: nat, n: nat)
    requires m <= n && from + n <= |mem|
    ensures mem[from..from + n][..m] == mem[from..from + m]
  {
  }

  lemma {:induction false} SaveAndFreeView(h: Heap, id: nat)
    requires Ok(h) && id in h.live && h.live[id].size <= h.spareSize
    ensures var g := SaveAndFree(h, id);
            && Ok(g) && View(g) == View(h) - {id} && g.next == h.next && g.live == h.live - {id}
            && g.base == h.base && g.size == h.size && g.spare == h.spare && g.spareSize == h.spareSize
            && g.mem[h.spare..h.spare + h.live[id].size] == View(h)[id]
  {
    SaveKeepsView(h, id);
    var b := h.live[id];
    var saved := h.(mem := CopyBytes(h.mem, h.spare, b.begin, b.size));
    assert Points(saved, Handle(id));
    FreeKeepsView(saved, Handle(id));
  }

  /**
   What a successful `realloc` of `id` must show: `next` is new and `n` bytes long, it starts like the old
   block, and everything else is as it was.
   */
  ghost predicate Resized(before: map<nat, seq<byte>>, id: nat, n: nat, after: map<nat, seq<byte>>, next: nat) {
    && id in before && next in after && |after[next]| == n
    && after - {next} == before - {id}
    && var m := Min(|before[id]|, n);
       after[next][..m] == before[id][..m]
  }

  /**
   `realloc` of a live block: on success the new handle shows the first min(old size, n) bytes of the
   old block and all other handles show what they did; otherwise the block is gone and nothing else.
   */
  lemma {:induction false} ReallocKeepsView(h: Heap, id: nat, n: nat)
    requires Ok(h) && id in h.live && h.live[id].size <= h.spareSize
    ensures var r := Realloc(h, Handle(id), n);
            && Ok(r.heap)
            && (r.p.Handle? ==>
                  r.outcome == Done && r.p == Handle(h.next) && Resized(View(h), id, n, View(r.heap), h.next))
            && (r.p.Null? ==> View(r.heap) == View(h) - {id})
            && (r.p.Null? <==> n == 0 || r.outcome == NoMemory)
  {
    var g := SaveAndFree(h, id);
    SaveAndFreeView(h, id);
    LiveInBuffer(h, id);
    AllocKeepsView(g, n);
    AllocKeepsOk(g, n);
    if Alloc(g, n).p.Handle? {
      MoveInto(View(h), id, n, Alloc(g, n).heap, h.next);
    }
  }

  lemma {:induction false} CopyResizes(
    view: map<nat, seq<byte>>, id: nat, mem: seq<byte>, live: map<nat, Block>, next: nat, spare: nat, m: nat)
    requires id in view && next in live && live[next].End() <= |mem| && m == Min(|view[id]|, live[next].size)
    requires forall k :: k in live - {next} ==> live[k].End() <= |mem| && Apart(Block(live[next].begin, m), live[k])
    requires ViewOf(mem, live) - {next} == view - {id}
    requires spare + |view[id]| <= |mem| && mem[spare..spare + |view[id]|] == view[id]
    ensures Resized(view, id, live[next].size, ViewOf(CopyBytes(mem, live[next].begin, spare, m), live), next)
  {
    CopyIntoBlock(mem, live, next, spare, m);
    PrefixOfSlice(mem, spare, m, |view[id]|);
  }

  /** From the saved bytes into the block just allocated. */
  lemma {:induction false} MoveInto(view: map<nat, seq<byte>>, id: nat, n: nat, a: Heap, next: nat)
    requires Ok(a) && id in view && |view[id]| <= a.spareSize
    requires next in a.live && a.live[next].size == n && View(a) - {next} == view - {id}
    requires a.spare + |view[id]| <= |a.mem| && a.mem[a.spare..a.spare + |view[id]|] == view[id]
    ensures var m := Min(|view[id]|, n);
            a.live[next].begin + m <= |a.mem| && a.spare + m <= |a.mem|
            && Ok(CopyBack(a, next, m)) && Resized(view, id, n, View(CopyBack(a, next, m)), next)
  {
    var m := Min(|view[id]|, n);
    LiveInBuffer(a, next);
    BlockIsApart(a, next, m);
    OtherBytesAreOk(a, CopyBytes(a.mem, a.live[next].begin, a.spare, m));
    CopyResizes(view, id, a.mem, a.live, next, a.spare, m);
  }

  /** `n` consecutive bytes from `x` on are in the active half and in no block but that of `id`. */
  ghost predicate FitsWithout(h: Heap, id: nat, x: nat, n: nat) {
    h.base <= x && x + n <= h.base + h.size && forall y :: x <= y < x + n ==> !Taken(h.live - {id}, y)
  }

  /**
   `realloc` to n > 0 bytes fails exactly when no n bytes in a row are free once the block itself is
   counted as free; otherwise the block goes to the lowest such place.
   */
  lemma {:induction false} ReallocIsLowestFit(h: Heap, id: nat, n: nat)
    requires Ok(h) && id in h.live && h.live[id].size <= h.spareSize && n > 0
    ensures var r := Realloc(h, Handle(id), n);
            && (r.outcome == NoMemory <==> forall x: nat :: !FitsWithout(h, id, x, n))
            && r.heap.next == (if r.outcome == NoMemory then h.next else h.next + 1)
            && (r.outcome != NoMemory ==>
                  && r.p == Handle(h.next) && h.next in r.heap.live && r.heap.live[h.next].size == n
                  && FitsWithout(h, id, r.heap.live[h.next].begin, n)
                  && forall x: nat :: FitsWithout(h, id, x, n) ==> r.heap.live[h.next].begin <= x)
  {
    var g := SaveAndFree(h, id);
    SaveAndFreeView(h, id);
    AllocIsLowestFit(g, n);
    forall x: nat ensures FitsWithout(h, id, x, n) <==> Fits(g, x, n) {
    }
  }

  /** `realloc` to nothing frees the block. */
  lemma {:induction false} ReallocToNothing(h: Heap, id: nat)
    requires Ok(h) && id in h.live && h.live[id].size <= h.spareSize
    ensures var r := Realloc(h, Handle(id), 0);
            && r.p == Null && r.outcome == Done && Ok(r.heap) && r.heap.next == h.next
            && r.heap.live == h.live - {id} && View(r.heap) == View(h) - {id}
  {
    SaveAndFreeView(h, id);
  }

  /**
   `realloc` of a handle without a block allocates: it fails exactly when no n bytes in a row are free, and
   then leaves handle and heap alone; otherwise the handle gets the lowest such place.
   */
  lemma {:induction false} ReallocOfNothing(h: Heap, p: Pointer, n: nat)
    requires Ok(h) && !Points(h, p)
    ensures var r := Realloc(h, p, n);
            && (n == 0 ==> r == Result(h, Null, Done))
            && (n > 0 ==> (r.outcome == NoMemory <==> forall x: nat :: !Fits(h, x, n)))
            && (r.outcome == NoMemory ==> r.heap == h && r.p == p)
            && (n > 0 && r.outcome != NoMemory ==>
                  && r.outcome == Done && r.p == Handle(h.next) && Ok(r.heap)
                  && h.next in r.heap.live && r.heap.live[h.next].size == n
                  && IsLowestFit(h, r.heap.live[h.next].begin, n)
                  && r.heap.live - {h.next} == h.live && View(r.heap) - {h.next} == View(h))
  {
    AllocKeepsView(h, n);
    if n > 0 {
      AllocIsLowestFit(h, n);
    }
  }

  /** A block that fills its half cannot grow: asking for more loses it. */
  lemma {:induction false} FullBlockIsLost(h: Heap, id: nat, n: nat)
    requires Ok(h) && h.live == map[id := Block(h.base, h.size)] && h.size <= h.spareSize && n > h.size
    ensures var r := Realloc(h, Handle(id), n);
            r.outcome == NoMemory && r.p == Null && Ok(r.heap) && View(r.heap) == map[]
  {
    ReallocIsLowestFit(h, id, n);
    ReallocKeepsView(h, id, n);
    assert View(h).Keys == {id};
    assert View(h) - {id} == map[];
  }

  lemma {:induction false} AllocHalf(mem: seq<byte>)
    requires |mem| >= 2
    ensures var half := |mem| / 2;
            var a := Alloc(Init(mem), half);
            && a.p == Handle(1) && Ok(a.heap) && a.heap.live == map[1 := Block(0, half)]
            && a.heap.base == 0 && a.heap.size == half <= a.heap.spareSize
  {
    InitIsOk(mem);
    AllocKeepsOk(Init(mem), |mem| / 2);
  }

  /** Taking the whole half of a new allocator and growing by one byte. */
  lemma {:induction false} GrowingLosesTheBlock(mem: seq<byte>)
    requires |mem| >= 2
    ensures var half := |mem| / 2;
            var a := Alloc(Init(mem), half);
            && Ok(a.heap) && Points(a.heap, a.p) && ReallocFits(a.heap, a.p)
            && var r := Realloc(a.heap, a.p, half + 1);
               r.outcome == NoMemory && r.p == Null && r.heap.live == map[]
  {
    AllocHalf(mem);
    var a := Alloc(Init(mem), |mem| / 2);
    FullBlockIsLost(a.heap, 1, |mem| / 2 + 1);
    assert View(Realloc(a.heap, a.p, |mem| / 2 + 1).heap).Keys == {};
    assert Realloc(a.heap, a.p, |mem| / 2 + 1).heap.live.Keys == {};
  }

  /** Shrinking never fails and never moves the block to a higher address. */
  lemma {:induction false} ShrinkInPlaceOrLower(h: Heap, id: nat, n: nat)
    requires Ok(h) && id in h.live && h.live[id].size <= h.spareSize && 0 < n <= h.live[id].size
    ensures var r := Realloc(h, Handle(id), n);
            r.outcome == Done && r.p == Handle(h.next) && h.next in r.heap.live
            && r.heap.live[h.next].begin <= h.live[id].begin
  {
    var g, b := SaveAndFree(h, id), h.live[id];
    SaveAndFreeView(h, id);
    forall y | b.begin <= y < b.begin + n ensures !Taken(g.live, y) {
      HeldOnce(h.live, id, y, h.base, h.size, h.next);
    }
    assert Fits(g, b.begin, n);
    AllocIsLowestFit(g, n);
  }
}
