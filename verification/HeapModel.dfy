/**
 The allocator over values: the buffer, the free list of the active half, and the blocks behind the
 live handles. Each operation is given as a function from the heap before to the heap after.
 */
module HeapModel {
  import opened Bytes
  import opened FreeList

  datatype Pointer = Null | Handle(id: nat)

  datatype Outcome = Done | NoMemory | InvalidFree

  datatype Heap = Heap(
    frees: seq<Block>, live: map<nat, Block>, base: nat, size: nat, spare: nat, spareSize: nat,
    next: nat, mem: seq<byte>)

  datatype Result = Result(heap: Heap, p: Pointer, outcome: Outcome)

  /** A fresh allocator over a buffer: the first half is active and free. */
  function Init(mem: seq<byte>): Heap {
    var half := |mem| / 2;
    Heap([Block(0, half)], map[], 0, half, half, |mem| - half, 1, mem)
  }

  /** The handle points to a live block. */
  predicate Points(h: Heap, p: Pointer) {
    p.Handle? && p.id in h.live
  }

  function Alloc(h: Heap, n: nat): Result {
    var i := FirstFit(h.frees, n);
    if n == 0 then Result(h, Null, Done)
    else if i == |h.frees| then Result(h, Null, NoMemory)
    else Result(h.(frees := Split(h.frees, i, n),
                   live := h.live[h.next := Block(h.frees[i].begin, n)],
                   next := h.next + 1), Handle(h.next), Done)
  }

  /** A handle that points nowhere is left as it is; a freed one becomes null. */
  function Free(h: Heap, p: Pointer): Result {
    if !Points(h, p) then Result(h, p, Done)
    else Result(h.(frees := Release(h.frees, h.live[p.id]), live := h.live - {p.id}), Null, Done)
  }

  /** `memcpy`: the `n` bytes at `src` are copied to `dst`. */
  function CopyBytes(mem: seq<byte>, dst: nat, src: nat, n: nat): (r: seq<byte>)
    requires dst + n <= |mem| && src + n <= |mem|
    ensures |r| == |mem|
  {
    mem[..dst] + mem[src..src + n] + mem[dst + n..]
  }

  /** Copying byte by byte between places that do not overlap. */
  lemma {:induction false} CopyNext(mem: seq<byte>, dst: nat, src: nat, i: nat)
    requires dst + i < |mem| && src + i < |mem| && (dst + i < src || src + i < dst)
    ensures CopyBytes(mem, dst, src, i)[src + i] == mem[src + i]
    ensures CopyBytes(mem, dst, src, i)[dst + i := mem[src + i]] == CopyBytes(mem, dst, src, i + 1)
  {
    var r, s := CopyBytes(mem, dst, src, i)[dst + i := mem[src + i]], CopyBytes(mem, dst, src, i + 1);
    forall k | 0 <= k < |mem| ensures r[k] == s[k] {
    }
  }

  function Min(a: nat, b: nat): nat {
    if a < b then a else b
  }

  /** A block is copied to the spare half and freed. */
  function SaveAndFree(h: Heap, id: nat): Heap
    requires Ok(h) && id in h.live && h.live[id].size <= h.spareSize
  {
    var b := h.live[id];
    Free(h.(mem := CopyBytes(h.mem, h.spare, b.begin, b.size)), Handle(id)).heap
  }

  /** The first `m` bytes of the spare half are copied into a block. */
  function CopyBack(h: Heap, id: nat, m: nat): Heap
    requires id in h.live && h.live[id].begin + m <= |h.mem| && h.spare + m <= |h.mem|
  {
    h.(mem := CopyBytes(h.mem, h.live[id].begin, h.spare, m))
  }

  /** The block is first copied to the spare half, freed, and copied back to where there is room. */
  function Realloc(h: Heap, p: Pointer, n: nat): Result
    requires Ok(h) && ReallocFits(h, p)
  {
    if !Points(h, p) then
      var r := Alloc(h, n);
      if r.outcome == NoMemory then r.(p := p) else r
    else
      SaveAndFreeIsOk(h, p.id);
      var g := SaveAndFree(h, p.id);
      var r := Alloc(g, n);
      if r.p == Null then r
      else
        AllocKeepsOk(g, n);
        r.(heap := CopyBack(r.heap, r.p.id, Min(h.live[p.id].size, n)))
  }

  /** The spare half has room for the block that `Realloc` saves there. */
  predicate ReallocFits(h: Heap, p: Pointer) {
    Points(h, p) ==> h.live[p.id].size <= h.spareSize
  }

  /** Some live block holds byte `x`. */
  ghost predicate Taken(live: map<nat, Block>, x: nat) {
    exists id :: id in live && live[id].Holds(x)
  }

  predicate Apart(a: Block, b: Block) {
    a.End() <= b.begin || b.End() <= a.begin
  }

  /** The blocks behind the handles are non-empty, lie in the active half and do not overlap. */
  ghost predicate LiveOk(live: map<nat, Block>, base: nat, size: nat, next: nat) {
    && (forall id :: id in live ==>
          0 < id < next && live[id].size > 0 && base <= live[id].begin && live[id].End() <= base + size)
    && (forall i, j :: i in live && j in live && i != j ==> Apart(live[i], live[j]))
  }

  /** The two halves make up the buffer. */
  predicate HalvesOk(h: Heap) {
    && |h.mem| == h.size + h.spareSize
    && ((h.base == 0 && h.spare == h.size) || (h.spare == 0 && h.base == h.spareSize))
  }

  /** Every byte of the active half is free or in one live block. */
  ghost predicate Partitioned(frees: seq<Block>, live: map<nat, Block>, base: nat, size: nat) {
    forall x: nat :: Covers(frees, x) <==> base <= x < base + size && !Taken(live, x)
  }

  /** The allocator's invariant. */
  ghost predicate Ok(h: Heap) {
    && HalvesOk(h)
    && h.next > 0
    && Spaced(h.frees, h.base, h.base + h.size)
    && LiveOk(h.live, h.base, h.size, h.next)
    && Partitioned(h.frees, h.live, h.base, h.size)
  }

  lemma {:induction false} OneBlock(b: Block, hi: nat)
    requires b.End() == hi
    ensures Spaced([b], b.begin, hi)
    ensures forall x: nat :: Covers([b], x) <==> b.Holds(x)
  {
    assert [b][1..] == [];
  }

  /** A new allocator has the bytes of its buffer, no live handle, and its first half free. */
  lemma {:induction false} InitIsOk(mem: seq<byte>)
    ensures Ok(Init(mem))
    ensures Init(mem).mem == mem && Init(mem).live == map[]
    ensures forall x: nat :: Covers(Init(mem).frees, x) <==> x < |mem| / 2
  {
    OneBlock(Block(0, |mem| / 2), |mem| / 2);
  }

  /** The invariant does not depend on the bytes. */
  lemma {:induction false} OtherBytesAreOk(h: Heap, mem: seq<byte>)
    requires Ok(h) && |mem| == |h.mem|
    ensures Ok(h.(mem := mem))
  {
  }

  lemma {:induction false} SavedIsOk(h: Heap, src: nat, n: nat)
    requires Ok(h) && src + n <= |h.mem| && n <= h.spareSize
    ensures Ok(h.(mem := CopyBytes(h.mem, h.spare, src, n)))
  {
  }

  lemma {:induction false} SaveAndFreeIsOk(h: Heap, id: nat)
    requires Ok(h) && id in h.live && h.live[id].size <= h.spareSize
    ensures Ok(SaveAndFree(h, id))
  {
    var b := h.live[id];
    SavedIsOk(h, b.begin, b.size);
    FreeKeepsOk(h.(mem := CopyBytes(h.mem, h.spare, b.begin, b.size)), Handle(id));
  }

  /** Blocks whose bytes are not taken are apart from all live blocks. */
  lemma {:induction false} UntakenIsApart(live: map<nat, Block>, b: Block, base: nat, size: nat, next: nat)
    requires LiveOk(live, base, size, next) && b.size > 0
    requires forall x :: b.Holds(x) ==> !Taken(live, x)
    ensures forall id :: id in live ==> Apart(live[id], b)
  {
    forall id | id in live ensures Apart(live[id], b) {
      var x := if live[id].begin < b.begin then b.begin else live[id].begin;
      assert live[id].Holds(x) ==> Taken(live, x);
    }
  }

  lemma {:induction false} AllocKeepsOk(h: Heap, n: nat)
    requires Ok(h)
    ensures Ok(Alloc(h, n).heap)
    ensures var r := Alloc(h, n);
            r.p.Handle? ==> r.p.id == h.next && r.p.id in r.heap.live && r.heap.live[r.p.id].size == n
  {
    var i := FirstFit(h.frees, n);
    if n > 0 && i < |h.frees| {
      SplitSpaced(h.frees, i, n, h.base, h.base + h.size);
      FitIsUntaken(h, i, n);
      LiveAdd(h.live, Block(h.frees[i].begin, n), h.base, h.size, h.next);
      AllocPartition(h, i, n);
    }
  }

  lemma {:induction false} FitIsUntaken(h: Heap, i: nat, n: nat)
    requires Ok(h) && i < |h.frees| && n <= h.frees[i].size
    ensures var b := Block(h.frees[i].begin, n);
            h.base <= b.begin && b.End() <= h.base + h.size && forall x :: b.Holds(x) ==> !Taken(h.live, x)
  {
    var b := Block(h.frees[i].begin, n);
    InBounds(h.frees, i, h.base, h.base + h.size);
    forall x | b.Holds(x) ensures !Taken(h.live, x) {
      BlockIsCovered(h.frees, i, x);
    }
  }

  lemma {:induction false} LiveAdd(live: map<nat, Block>, b: Block, base: nat, size: nat, next: nat)
    requires LiveOk(live, base, size, next) && next > 0
    requires b.size > 0 && base <= b.begin && b.End() <= base + size
    requires forall x :: b.Holds(x) ==> !Taken(live, x)
    ensures LiveOk(live[next := b], base, size, next + 1)
  {
    UntakenIsApart(live, b, base, size, next);
  }

  lemma {:induction false} AllocPartition(h: Heap, i: nat, n: nat)
    requires Ok(h) && i < |h.frees| && 0 < n <= h.frees[i].size
    ensures var b := Block(h.frees[i].begin, n);
            Partitioned(Split(h.frees, i, n), h.live[h.next := b], h.base, h.size)
  {
    var b := Block(h.frees[i].begin, n);
    var live' := h.live[h.next := b];
    forall x: nat ensures Covers(Split(h.frees, i, n), x) <==> h.base <= x < h.base + h.size && !Taken(live', x) {
      SplitCovers(h.frees, i, n, h.base, h.base + h.size, x);
      TakenAdd(h.live, h.next, b, x);
    }
  }

  lemma {:induction false} TakenAdd(live: map<nat, Block>, id: nat, b: Block, x: nat)
    requires id !in live
    ensures Taken(live[id := b], x) <==> Taken(live, x) || b.Holds(x)
  {
    var live' := live[id := b];
    if Taken(live, x) {
      var k :| k in live && live[k].Holds(x);
      assert live'[k].Holds(x);
    }
    if b.Holds(x) {
      assert live'[id].Holds(x);
    }
  }

  lemma {:induction false} FreeKeepsOk(h: Heap, p: Pointer)
    requires Ok(h)
    ensures Ok(Free(h, p).heap)
  {
    if Points(h, p) {
      var b := h.live[p.id];
      forall x | b.Holds(x) ensures !Covers(h.frees, x) {
        assert Taken(h.live, x);
      }
      ReleaseKeeps(h.frees, b, h.base, h.base + h.size);
      FreePartition(h, p.id);
    }
  }

  lemma {:induction false} FreePartition(h: Heap, id: nat)
    requires Ok(h) && id in h.live
    requires forall x: nat :: Covers(Release(h.frees, h.live[id]), x) <==> Covers(h.frees, x) || h.live[id].Holds(x)
    ensures Partitioned(Release(h.frees, h.live[id]), h.live - {id}, h.base, h.size)
  {
    var b := h.live[id];
    forall x: nat ensures Covers(Release(h.frees, b), x)
                     <==> h.base <= x < h.base + h.size && !Taken(h.live - {id}, x)
    {
      TakenRemove(h.live, id, x);
      if b.Holds(x) {
        HeldOnce(h.live, id, x, h.base, h.size, h.next);
      }
    }
  }

  lemma {:induction false} TakenRemove(live: map<nat, Block>, id: nat, x: nat)
    requires id in live
    ensures Taken(live, x) <==> Taken(live - {id}, x) || live[id].Holds(x)
  {
    if Taken(live, x) && !live[id].Holds(x) {
      var k :| k in live && live[k].Holds(x);
      assert k in live - {id} && (live - {id})[k].Holds(x);
    }
  }

  lemma {:induction false} HeldOnce(live: map<nat, Block>, id: nat, x: nat, base: nat, size: nat, next: nat)
    requires LiveOk(live, base, size, next) && id in live && live[id].Holds(x)
    ensures !Taken(live - {id}, x)
  {
  }
}
