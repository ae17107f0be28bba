/** The handle-based compacting allocator. Addresses are offsets into its buffer. */
module Allocator {
  import opened Bytes
  import opened FreeList
  import opened HeapModel
  import opened Compaction
  import H = HeapModel
  import HeapLaws

  class Allocator {
    const buf: array<byte>
    var free_blocks_: seq<Block>
    var pointers_: map<nat, Block>
    var base1_: nat
    var base2_: nat
    var memory_size1_: nat
    var memory_size2_: nat
    var pointer_id_: nat

    /** The state as a value. */
    ghost function Abs(): Heap
      reads this, buf
    {
      Heap(free_blocks_, pointers_, base1_, memory_size1_, base2_, memory_size2_, pointer_id_, buf[..])
    }

    constructor (base: array<byte>)
      ensures buf == base && Abs() == Init(base[..]) && Ok(Abs())
    {
      buf := base;
      free_blocks_ := [Block(0, base.Length / 2)];
      pointers_ := map[];
      base1_, base2_ := 0, base.Length / 2;
      memory_size1_, memory_size2_ := base.Length / 2, base.Length - base.Length / 2;
      pointer_id_ := 1;
      new;
      InitIsOk(base[..]);
    }

    /** Takes the first `N` bytes of block `it`; what is left takes its place in the list. */
    method SplitBlock(it: nat, N: nat)
      requires it < |free_blocks_| && N <= free_blocks_[it].size
      modifies `free_blocks_
      ensures free_blocks_ == Split(old(free_blocks_), it, N)
    {
      var new_block := Block(free_blocks_[it].begin + N, free_blocks_[it].size - N);
      free_blocks_ := free_blocks_[..it] + free_blocks_[it + 1..];
      if new_block.size == 0 {
        assert free_blocks_ == Split(old(free_blocks_), it, N);
        return;
      }
      free_blocks_ := free_blocks_[..it] + [new_block] + free_blocks_[it..];
    }

    method ExtendBlock(it: nat, N: nat)
      requires it < |free_blocks_|
      modifies `free_blocks_
      ensures free_blocks_
           == old(free_blocks_)[it := Block(old(free_blocks_)[it].begin, old(free_blocks_)[it].size + N)]
    {
      free_blocks_ := free_blocks_[it := Block(free_blocks_[it].begin, free_blocks_[it].size + N)];
    }

    /** The first free block at or behind the end of the block of `p`, or the end of the list. */
    method FindNearestFreeBlock(p: Pointer) returns (it: nat)
      requires Points(Abs(), p)
      ensures it == Nearest(free_blocks_, pointers_[p.id])
    {
      if |free_blocks_| == 0 {
        return |free_blocks_|;
      }
      var pointer_info := pointers_[p.id];
      for i := 0 to |free_blocks_|
        invariant forall j :: 0 <= j < i ==> free_blocks_[j].begin < pointer_info.End()
      {
        if pointer_info.End() <= free_blocks_[i].begin {
          NearestIs(free_blocks_, pointer_info, i);
          return i;
        }
      }
      NearestIs(free_blocks_, pointer_info, |free_blocks_|);
      return |free_blocks_|;
    }

    /** Inserts the block of `p` into the list, in address order. */
    method AddFreeBlock(p: Pointer) returns (it: nat)
      requires Points(Abs(), p)
      modifies `free_blocks_
      ensures pointers_[p.id].size == 0 ==> it == 0 && free_blocks_ == old(free_blocks_)
      ensures pointers_[p.id].size > 0 ==>
                it == Nearest(old(free_blocks_), pointers_[p.id])
                && free_blocks_ == old(free_blocks_)[..it] + [pointers_[p.id]] + old(free_blocks_)[it..]
    {
      var cur_size := pointers_[p.id].size;
      if cur_size == 0 {
        return 0;
      }
      it := FindNearestFreeBlock(p);
      var new_free_block := pointers_[p.id];
      free_blocks_ := free_blocks_[..it] + [new_free_block] + free_blocks_[it..];
    }

    /** Block `it2` is removed and its size added to block `it1` before it. */
    method Merge2Blocks(it1: nat, it2: nat) returns (it: nat)
      requires it1 + 1 == it2 < |free_blocks_|
      modifies `free_blocks_
      ensures it == it1
      ensures free_blocks_ == old(free_blocks_)[..it1]
              + [Block(old(free_blocks_)[it1].begin, old(free_blocks_)[it1].size + old(free_blocks_)[it2].size)]
              + old(free_blocks_)[it2 + 1..]
    {
      var add_size := free_blocks_[it2].size;
      SplitBlock(it2, add_size);
      ExtendBlock(it1, add_size);
      it := it1;
    }

    /** Merges block `it` with the neighbours it touches. The last block has no next one to touch. */
    method MergeBlocks(it: nat, ghost left: seq<Block>, ghost b: Block, ghost right: seq<Block>)
      requires it == |left| && free_blocks_ == left + [b] + right
      modifies `free_blocks_
      ensures free_blocks_ == Join(left, b, right)
    {
      var next_it := it + 1;
      if |free_blocks_| <= 1 {
        return;
      }
      var at := it;
      if it == 0 {
        if free_blocks_[it].End() == free_blocks_[next_it].begin {
          at := Merge2Blocks(it, next_it);
        }
      } else {
        if next_it < |free_blocks_| && free_blocks_[it].End() == free_blocks_[next_it].begin {
          at := Merge2Blocks(it, next_it);
        }
        assert free_blocks_ == left + [Absorb(b, right).0] + Absorb(b, right).1;
        MergeBefore(at, left, Absorb(b, right).0, Absorb(b, right).1);
      }
    }

    /** Merges block `it` with the one before it if that ends where it begins. */
    method MergeBefore(it: nat, ghost left: seq<Block>, ghost c: Block, ghost right: seq<Block>)
      requires left != [] && it == |left| && free_blocks_ == left + [c] + right
      modifies `free_blocks_
      ensures free_blocks_ == JoinLeft(left, c, right)
    {
      if free_blocks_[it - 1].End() == free_blocks_[it].begin {
        var _ := Merge2Blocks(it - 1, it);
      }
    }

    /** Allocates `N` bytes in the first free block with room for them. */
    method Alloc(N: nat) returns (p: Pointer, outcome: Outcome)
      modifies `free_blocks_, `pointers_, `pointer_id_
      ensures Result(Abs(), p, outcome) == H.Alloc(old(Abs()), N)
    {
      if N == 0 {
        return Null, Done;
      }
      for it := 0 to |free_blocks_|
        invariant Abs() == old(Abs())
        invariant forall j :: 0 <= j < it ==> free_blocks_[j].size < N
      {
        if free_blocks_[it].size >= N {
          assert it == FirstFit(free_blocks_, N);
          p := Handle(pointer_id_);
          pointers_ := pointers_[pointer_id_ := Block(free_blocks_[it].begin, N)];
          pointer_id_ := pointer_id_ + 1;
          SplitBlock(it, N);
          return p, Done;
        }
      }
      assert |free_blocks_| == FirstFit(free_blocks_, N);
      return Null, NoMemory;
    }

    method ErasePointer(p: Pointer) returns (outcome: Outcome)
      requires p.Handle?
      modifies `pointers_
      ensures outcome == if p.id in old(pointers_) then Done else InvalidFree
      ensures pointers_ == old(pointers_) - {p.id}
    {
      if p.id in pointers_ {
        pointers_ := pointers_ - {p.id};
        return Done;
      }
      return InvalidFree;
    }

    /** Gives a block back; the handle becomes null. */
    method Free(p: Pointer) returns (p': Pointer, outcome: Outcome)
      requires Ok(Abs())
      modifies `free_blocks_, `pointers_
      ensures Result(Abs(), p', outcome) == H.Free(old(Abs()), p)
    {
      if !(p.Handle? && p.id in pointers_) {
        return p, Done;
      }
      ghost var fs, b := free_blocks_, pointers_[p.id];
      var it := AddFreeBlock(p);
      MergeBlocks(it, fs[..it], b, fs[it..]);
      outcome := ErasePointer(p);
      p' := Null;
    }

    /** `memcpy` between ranges that do not overlap. */
    method Memcpy(dst: nat, src: nat, n: nat)
      requires dst + n <= buf.Length && src + n <= buf.Length
      requires Apart(Block(dst, n), Block(src, n))
      modifies buf
      ensures buf[..] == CopyBytes(old(buf[..]), dst, src, n)
    {
      for i := 0 to n
        invariant buf[..] == CopyBytes(old(buf[..]), dst, src, i)
      {
        CopyNext(old(buf[..]), dst, src, i);
        buf[dst + i] := buf[src + i];
      }
    }

    /** Resizes a block, which may move it. */
    method Realloc(p: Pointer, N: nat) returns (p': Pointer, outcome: Outcome)
      requires Ok(Abs()) && ReallocFits(Abs(), p)
      modifies `free_blocks_, `pointers_, `pointer_id_, buf
      ensures Result(Abs(), p', outcome) == H.Realloc(old(Abs()), p, N)
    {
      if !(p.Handle? && p.id in pointers_) {
        p', outcome := Alloc(N);
        if outcome == NoMemory {
          p' := p;
        }
        return;
      }
      var prev_size := pointers_[p.id].size;
      Save(p);
      AllocKeepsOk(Abs(), N);
      p', outcome := Alloc(N);
      if p'.Handle? {
        CopyBack(p'.id, Min(prev_size, N));
      }
    }

    /** Copies a block to the spare half and frees it. */
    method Save(p: Pointer)
      requires Ok(Abs()) && Points(Abs(), p) && ReallocFits(Abs(), p)
      modifies `free_blocks_, `pointers_, buf
      ensures Ok(Abs()) && Abs() == H.SaveAndFree(old(Abs()), p.id)
    {
      HeapLaws.LiveInBuffer(Abs(), p.id);
      SaveAndFreeIsOk(Abs(), p.id);
      SavedIsOk(Abs(), pointers_[p.id].begin, pointers_[p.id].size);
      Memcpy(base2_, pointers_[p.id].begin, pointers_[p.id].size);
      var _, _ := Free(p);
    }

    /** Copies the first `m` bytes of the spare half into a block. */
    method CopyBack(id: nat, m: nat)
      requires Ok(Abs()) && id in pointers_ && m <= pointers_[id].size && base2_ + m <= buf.Length
      requires m <= memory_size2_
      modifies buf
      ensures pointers_[id].begin + m <= |old(buf[..])|
      ensures Abs() == H.CopyBack(old(Abs()), id, m)
    {
      HeapLaws.LiveInBuffer(Abs(), id);
      Memcpy(pointers_[id].begin, base2_, m);
    }

    /** Copies the block of `id`, if it is live, behind the `all_size` bytes copied before. */
    method CopyBlock(id: nat, all_size: nat, temp_pointers: map<nat, Block>, ghost h: Heap)
      returns (all: nat, temp: map<nat, Block>)
      requires Ok(h) && DefragFits(h) && id < h.next
      requires Abs() == h.(mem := buf[..]) && PackedUpTo(h, id, all_size, buf[..], temp_pointers)
      modifies buf
      ensures PackedUpTo(h, id + 1, all, buf[..], temp)
    {
      PackStep(h, id, all_size, buf[..], temp_pointers);
      all, temp := all_size, temp_pointers;
      if id in pointers_ {
        var cur_begin := base2_ + all_size;
        all := all + pointers_[id].size;
        Memcpy(cur_begin, pointers_[id].begin, pointers_[id].size);
        temp := temp[id := Block(cur_begin, pointers_[id].size)];
      }
    }

    /** Copies all live blocks to the other half, packed, and swaps the halves. */
    method Defrag()
      requires Ok(Abs()) && DefragFits(Abs())
      modifies `free_blocks_, `pointers_, `base1_, `base2_, `memory_size1_, `memory_size2_, buf
      ensures Abs() == Compaction.Defrag(old(Abs()))
    {
      var all_size: nat := 0;
      var temp_pointers: map<nat, Block> := map[];
      ghost var h := Abs();
      for id := 0 to pointer_id_
        invariant Abs() == h.(mem := buf[..])
        invariant PackedUpTo(h, id, all_size, buf[..], temp_pointers)
      {
        all_size, temp_pointers := CopyBlock(id, all_size, temp_pointers, h);
      }
      PackDone(h, all_size, buf[..], temp_pointers);
      free_blocks_ := [Block(base2_ + all_size, memory_size2_ - all_size)];
      base1_, base2_ := base2_, base1_;
      memory_size1_, memory_size2_ := memory_size2_, memory_size1_;
      pointers_ := temp_pointers;
    }
  }
}
