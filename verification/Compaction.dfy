/** Compaction: all live blocks are copied to the other half, packed in the order of their ids. */
module Compaction {
  import opened Bytes
  import opened FreeList
  import opened HeapModel
  import opened HeapLaws

  /** The bytes of all live blocks with ids below `k`. */
  function Total(live: map<nat, Block>, k: nat): nat {
    if k == 0 then 0 else Total(live, k - 1) + (if k - 1 in live then live[k - 1].size else 0)
  }

  /** Where the block of `id` goes when packing starts at `to`. */
  function Place(live: map<nat, Block>, to: nat, id: nat): Block
    requires id in live
  {
    Block(to + Total(live, id), live[id].size)
  }

  function Packed(live: map<nat, Block>, to: nat): map<nat, Block> {
    map id | id in live :: Place(live, to, id)
  }

  /** The buffer after the blocks with ids below `k` were copied. */
  function PackBytes(mem: seq<byte>, live: map<nat, Block>, to: nat, k: nat): (r: seq<byte>)
    requires to + Total(live, k) <= |mem|
    requires forall id :: id in live ==> live[id].End() <= |mem|
    ensures |r| == |mem|
  {
    if k == 0 then mem
    else
      var m := PackBytes(mem, live, to, k - 1);
      if k - 1 in live
      then CopyBytes(m, to + Total(live, k - 1), live[k - 1].begin, live[k - 1].size)
      else m
  }

  /** The other half has room for all live blocks. */
  predicate DefragFits(h: Heap) {
    Total(h.live, h.next) <= h.spareSize
  }

  function Defrag(h: Heap): Heap
    requires Ok(h) && DefragFits(h)
  {
    var all := Total(h.live, h.next);
    BlocksInBuffer(h);
    Heap([Block(h.spare + all, h.spareSize - all)], Packed(h.live, h.spare), h.spare, h.spareSize,
         h.base, h.size, h.next, PackBytes(h.mem, h.live, h.spare, h.next))
  }

  /** The blocks with ids below `k` are copied: `temp` says where, `all` are their bytes. */
  ghost predicate PackedUpTo(h: Heap, k: nat, all: nat, mem: seq<byte>, temp: map<nat, Block>)
    requires Ok(h)
  {
    BlocksInBuffer(h);
    && all == Total(h.live, k) <= h.spareSize
    && mem == PackBytes(h.mem, h.live, h.spare, k)
    && temp == PlacedBelow(h.live, h.spare, k)
  }

  function PlacedBelow(live: map<nat, Block>, to: nat, k: nat): map<nat, Block> {
    map id | id in live && id < k :: Place(live, to, id)
  }

  lemma {:induction false} PlacedNext(live: map<nat, Block>, to: nat, k: nat)
    ensures k !in live ==> PlacedBelow(live, to, k + 1) == PlacedBelow(live, to, k)
    ensures k in live ==> PlacedBelow(live, to, k + 1) == PlacedBelow(live, to, k)[k := Place(live, to, k)]
  {
  }

  /** The next block fits behind the ones before it, apart from its source. */
  lemma {:induction false} NextFits(h: Heap, k: nat)
    requires Ok(h) && DefragFits(h) && k < h.next
    ensures Total(h.live, k + 1) <= h.spareSize && h.spare + h.spareSize <= |h.mem|
    ensures k in h.live ==> h.live[k].End() <= |h.mem| && Apart(Block(h.spare, h.spareSize), h.live[k])
  {
    TotalGrows(h.live, k + 1, h.next);
  }

  lemma {:induction false} PackStep(h: Heap, k: nat, all: nat, mem: seq<byte>, temp: map<nat, Block>)
    requires Ok(h) && DefragFits(h) && k < h.next && PackedUpTo(h, k, all, mem, temp)
    ensures k !in h.live ==> PackedUpTo(h, k + 1, all, mem, temp)
    ensures k in h.live ==>
              var b := h.live[k];
              && h.spare + all + b.size <= |mem| && b.End() <= |mem|
              && Apart(Block(h.spare + all, b.size), b)
              && PackedUpTo(h, k + 1, all + b.size, CopyBytes(mem, h.spare + all, b.begin, b.size),
                            temp[k := Block(h.spare + all, b.size)])
  {
    BlocksInBuffer(h);
    NextFits(h, k);
    PlacedNext(h.live, h.spare, k);
  }

  lemma {:induction false} PackDone(h: Heap, all: nat, mem: seq<byte>, temp: map<nat, Block>)
    requires Ok(h) && DefragFits(h) && PackedUpTo(h, h.next, all, mem, temp)
    ensures mem == PackBytes(h.mem, h.live, h.spare, h.next) && temp == Packed(h.live, h.spare)
    ensures all == Total(h.live, h.next)
  {
  }

  lemma {:induction false} BlocksInBuffer(h: Heap)
    requires Ok(h)
    ensures forall id :: id in h.live ==> h.live[id].End() <= |h.mem|
  {
  }

  lemma {:induction false} TotalGrows(live: map<nat, Block>, i: nat, j: nat)
    requires i <= j
    ensures Total(live, i) <= Total(live, j)
    ensures i in live && i < j ==> Total(live, i) + live[i].size <= Total(live, j)
    decreases j
  {
    if i < j {
      TotalGrows(live, i, j - 1);
    }
  }

  /** Every byte below the packed total is in one packed block. */
  lemma {:induction false} PackedIsTight(live: map<nat, Block>, to: nat, k: nat, x: nat)
    requires to <= x < to + Total(live, k)
    ensures exists id :: id < k && id in live && Place(live, to, id).Holds(x)
  {
    if k - 1 in live && x >= to + Total(live, k - 1) {
      assert Place(live, to, k - 1).Holds(x);
    } else {
      PackedIsTight(live, to, k - 1, x);
    }
  }

  lemma {:induction false} PackedIsOk(live: map<nat, Block>, base: nat, size: nat, next: nat, to: nat, room: nat)
    requires LiveOk(live, base, size, next) && Total(live, next) <= room
    ensures LiveOk(Packed(live, to), to, room, next)
  {
    var packed := Packed(live, to);
    forall id | id in packed ensures packed[id].End() <= to + room {
      TotalGrows(live, id, next);
    }
    forall i, j | i in packed && j in packed && i != j ensures Apart(packed[i], packed[j]) {
      if i < j {
        TotalGrows(live, i, j);
      } else {
        TotalGrows(live, j, i);
      }
    }
  }

  lemma {:induction false} PackedPartition(live: map<nat, Block>, base: nat, size: nat, next: nat, to: nat, room: nat)
    requires LiveOk(live, base, size, next) && Total(live, next) <= room
    ensures var all := Total(live, next);
            Partitioned([Block(to + all, room - all)], Packed(live, to), to, room)
  {
    var all := Total(live, next);
    var free := Block(to + all, room - all);
    var packed := Packed(live, to);
    forall x: nat ensures Covers([free], x) <==> to <= x < to + room && !Taken(packed, x) {
      assert !Covers([free][1..], x);
      if to <= x < to + all {
        PackedIsTight(live, to, next, x);
        var id :| id < next && id in live && Place(live, to, id).Holds(x);
        assert packed[id].Holds(x);
      }
      if Taken(packed, x) {
        var id :| id in packed && packed[id].Holds(x);
        TotalGrows(live, id, next);
      }
    }
  }

  lemma {:induction false} DefragKeepsOk(h: Heap)
    requires Ok(h) && DefragFits(h)
    ensures Ok(Defrag(h))
  {
    var g := Defrag(h);
    PackedIsOk(h.live, h.base, h.size, h.next, h.spare, h.spareSize);
    PackedPartition(h.live, h.base, h.size, h.next, h.spare, h.spareSize);
    assert Spaced(g.frees[1..], g.frees[0].End() + 1, g.base + g.size);
  }

  /** Copying blocks leaves everything apart from their targets alone. */
  lemma {:induction false} PackElsewhere(mem: seq<byte>, live: map<nat, Block>, to: nat, k: nat, b: Block)
    requires to + Total(live, k) <= |mem| && b.End() <= |mem|
    requires forall id :: id in live ==> live[id].End() <= |mem|
    requires Apart(Block(to, Total(live, k)), b)
    ensures PackBytes(mem, live, to, k)[b.begin..b.End()] == mem[b.begin..b.End()]
  {
    if k > 0 {
      PackElsewhere(mem, live, to, k - 1, b);
      if k - 1 in live {
        CopyElsewhere(PackBytes(mem, live, to, k - 1), to + Total(live, k - 1), live[k - 1].begin,
                      live[k - 1].size, b);
      }
    }
  }

  /** The block that is copied last arrives, for its source lies apart from all targets. */
  lemma {:induction false} ArrivesNow(mem: seq<byte>, live: map<nat, Block>, to: nat, id: nat)
    requires to + Total(live, id + 1) <= |mem| && id in live
    requires forall i :: i in live ==> live[i].End() <= |mem|
    requires Apart(Block(to, Total(live, id + 1)), live[id])
    ensures var b := Place(live, to, id);
            && b.End() <= |mem|
            && PackBytes(mem, live, to, id + 1)[b.begin..b.End()] == mem[live[id].begin..live[id].End()]
  {
    PackElsewhere(mem, live, to, id, live[id]);
    CopyArrives(PackBytes(mem, live, to, id), to + Total(live, id), live[id].begin, live[id].size);
  }

  /** A block that is in place stays when the ones behind it are copied. */
  lemma {:induction false} StaysThere(mem: seq<byte>, live: map<nat, Block>, to: nat, k: nat, b: Block, from: nat)
    requires from <= k && to + Total(live, k) <= |mem| && b.End() <= to + Total(live, from) <= |mem|
    requires forall i :: i in live ==> live[i].End() <= |mem|
    ensures PackBytes(mem, live, to, k)[b.begin..b.End()] == PackBytes(mem, live, to, from)[b.begin..b.End()]
    decreases k
  {
    if from < k {
      TotalGrows(live, from, k - 1);
      StaysThere(mem, live, to, k - 1, b, from);
      if k - 1 in live {
        CopyElsewhere(PackBytes(mem, live, to, k - 1), to + Total(live, k - 1), live[k - 1].begin, live[k - 1].size, b);
      }
    }
  }

  /** Every block arrives. */
  lemma {:induction false} PackArrives(mem: seq<byte>, live: map<nat, Block>, to: nat, k: nat, id: nat)
    requires to + Total(live, k) <= |mem| && id in live && id < k
    requires forall i :: i in live ==> live[i].End() <= |mem|
    requires Apart(Block(to, Total(live, k)), live[id])
    ensures to + Total(live, id) + live[id].size <= |mem|
    ensures var b := Place(live, to, id);
            PackBytes(mem, live, to, k)[b.begin..b.End()] == mem[live[id].begin..live[id].End()]
  {
    TotalGrows(live, id + 1, k);
    ArrivesNow(mem, live, to, id);
    StaysThere(mem, live, to, k, Place(live, to, id), id + 1);
  }

  /** `defrag` moves every block and changes nothing that a handle shows. */
  lemma {:induction false} DefragKeepsView(h: Heap)
    requires Ok(h) && DefragFits(h)
    ensures Ok(Defrag(h)) && View(Defrag(h)) == View(h)
  {
    DefragKeepsOk(h);
    BlocksInBuffer(h);
    var g := Defrag(h);
    forall id | id in h.live ensures Shows(g.mem, g.live[id]) == Shows(h.mem, h.live[id]) {
      assert Apart(Block(h.spare, Total(h.live, h.next)), h.live[id]);
      PackArrives(h.mem, h.live, h.spare, h.next, id);
    }
  }

  /** After `defrag` the blocks are packed in the order of their ids, and none overlaps its source. */
  lemma {:induction false} DefragPacks(h: Heap, id: nat)
    requires Ok(h) && DefragFits(h) && id in h.live
    ensures id in Defrag(h).live
    ensures Defrag(h).live[id] == Block(h.spare + Total(h.live, id), h.live[id].size)
    ensures forall i :: i in h.live ==> Apart(Defrag(h).live[id], h.live[i])
    ensures Defrag(h).live.Keys == h.live.Keys && Defrag(h).next == h.next
  {
    TotalGrows(h.live, id, h.next);
  }

  /** The bytes of the half that was active stay where they are. */
  lemma {:induction false} DefragLeavesSources(h: Heap)
    requires Ok(h) && DefragFits(h)
    ensures h.base + h.size <= |h.mem| == |Defrag(h).mem|
    ensures Defrag(h).mem[h.base..h.base + h.size] == h.mem[h.base..h.base + h.size]
  {
    BlocksInBuffer(h);
    PackElsewhere(h.mem, h.live, h.spare, h.next, Block(h.base, h.size));
  }

  /** After `defrag`, an allocation succeeds exactly when the free bytes suffice in total. */
  lemma {:induction false} DefragMakesRoom(h: Heap, n: nat)
    requires Ok(h) && DefragFits(h) && n > 0
    ensures Alloc(Defrag(h), n).outcome == Done <==> n + Total(h.live, h.next) <= h.spareSize
  {
    var g := Defrag(h);
    assert FirstFit(g.frees[1..], n) == 0;
  }
}
