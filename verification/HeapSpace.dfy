/** Conservation: the free bytes and the live bytes add up to the active half. */
module HeapSpace {
  import opened FreeList
  import opened HeapModel
  import opened Compaction

  predicate Within(x: nat, from: nat, n: nat) {
    from <= x < from + n
  }

  function Range(from: nat, n: nat): set<nat> {
    set x: nat | from <= x < from + n && Within(x, from, n)
  }

  lemma {:induction false} RangeCount(from: nat, n: nat)
    ensures |Range(from, n)| == n
  {
    if n == 0 {
      assert Range(from, 0) == {};
    } else {
      RangeCount(from, n - 1);
      assert Range(from, n) == Range(from, n - 1) + {from + n - 1};
    }
  }

  function SizeOf(fs: seq<Block>): nat {
    if fs == [] then 0 else fs[0].size + SizeOf(fs[1..])
  }

  ghost function FreeSet(fs: seq<Block>, lo: nat, hi: nat): set<nat> {
    set x: nat | lo <= x < hi && Covers(fs, x)
  }

  lemma {:induction false} FreeCount(fs: seq<Block>, lo: nat, hi: nat)
    requires Spaced(fs, lo, hi)
    ensures |FreeSet(fs, lo, hi)| == SizeOf(fs)
  {
    if fs == [] {
      assert FreeSet(fs, lo, hi) == {};
    } else {
      var f := fs[0];
      var rest := FreeSet(fs[1..], f.End() + 1, hi);
      FreeCount(fs[1..], f.End() + 1, hi);
      RangeCount(f.begin, f.size);
      forall x: nat ensures x in FreeSet(fs, lo, hi) <==> x in Range(f.begin, f.size) || x in rest {
        if Covers(fs[1..], x) {
          CoversInRange(fs[1..], f.End() + 1, hi, x);
        }
      }
      assert FreeSet(fs, lo, hi) == Range(f.begin, f.size) + rest;
    }
  }

  /** A live block with an id below `k` holds byte `x`. */
  ghost predicate TakenBelow(live: map<nat, Block>, k: nat, x: nat) {
    exists id :: id < k && id in live && live[id].Holds(x)
  }

  /** The bytes of the live blocks with ids below `k`. */
  ghost function LiveSet(live: map<nat, Block>, base: nat, size: nat, k: nat): set<nat> {
    set x: nat | base <= x < base + size && TakenBelow(live, k, x)
  }

  lemma {:induction false} TakenNext(live: map<nat, Block>, k: nat, x: nat)
    ensures TakenBelow(live, k + 1, x) <==> (k in live && live[k].Holds(x)) || TakenBelow(live, k, x)
  {
    if TakenBelow(live, k + 1, x) {
      var id :| id < k + 1 && id in live && live[id].Holds(x);
      assert id < k || id == k;
    }
  }

  lemma {:induction false} HeldAlone(live: map<nat, Block>, base: nat, size: nat, next: nat, k: nat, x: nat)
    requires LiveOk(live, base, size, next) && k in live && live[k].Holds(x)
    ensures base <= x < base + size && !TakenBelow(live, k, x)
  {
  }

  lemma {:induction false} LiveSetSkips(live: map<nat, Block>, base: nat, size: nat, k: nat)
    requires k !in live
    ensures LiveSet(live, base, size, k + 1) == LiveSet(live, base, size, k)
  {
    forall x: nat ensures TakenBelow(live, k + 1, x) <==> TakenBelow(live, k, x) {
      TakenNext(live, k, x);
    }
  }

  lemma {:induction false} LiveSetAdds(live: map<nat, Block>, base: nat, size: nat, next: nat, k: nat)
    requires LiveOk(live, base, size, next) && k in live
    ensures LiveSet(live, base, size, k + 1) == Range(live[k].begin, live[k].size) + LiveSet(live, base, size, k)
    ensures Range(live[k].begin, live[k].size) !! LiveSet(live, base, size, k)
  {
    var b, after, now := live[k], LiveSet(live, base, size, k + 1), LiveSet(live, base, size, k);
    forall x: nat
      ensures x in after <==> x in Range(b.begin, b.size) || x in now
      ensures !(x in Range(b.begin, b.size) && x in now)
    {
      TakenNext(live, k, x);
      assert x in Range(b.begin, b.size) <==> b.Holds(x);
      if b.Holds(x) {
        HeldAlone(live, base, size, next, k, x);
      }
    }
  }

  lemma {:induction false} UnionCount(a: set<nat>, b: set<nat>, c: set<nat>)
    requires a !! b && c == a + b
    ensures |c| == |a| + |b|
  {
  }

  lemma {:induction false} LiveCount(live: map<nat, Block>, base: nat, size: nat, next: nat, k: nat)
    requires LiveOk(live, base, size, next)
    ensures |LiveSet(live, base, size, k)| == Total(live, k)
  {
    if k == 0 {
      assert LiveSet(live, base, size, 0) == {};
    } else {
      LiveCount(live, base, size, next, k - 1);
      if k - 1 in live {
        LiveSetAdds(live, base, size, next, k - 1);
        RangeCount(live[k - 1].begin, live[k - 1].size);
        UnionCount(Range(live[k - 1].begin, live[k - 1].size), LiveSet(live, base, size, k - 1),
                   LiveSet(live, base, size, k));
      } else {
        LiveSetSkips(live, base, size, k - 1);
      }
    }
  }

  lemma {:induction false} LiveSetIsTaken(live: map<nat, Block>, base: nat, size: nat, next: nat, x: nat)
    requires LiveOk(live, base, size, next)
    ensures x in LiveSet(live, base, size, next) <==> Taken(live, x)
  {
    if Taken(live, x) {
      var id :| id in live && live[id].Holds(x);
      assert id < next;
    }
  }

  /** Whatever was allocated, freed or moved: no byte of the active half is lost or counted twice. */
  lemma {:induction false} SpaceIsConserved(h: Heap)
    requires Ok(h)
    ensures SizeOf(h.frees) + Total(h.live, h.next) == h.size
  {
    FreeCount(h.frees, h.base, h.base + h.size);
    LiveCount(h.live, h.base, h.size, h.next, h.next);
    RangeCount(h.base, h.size);
    FreeAndLive(h);
    UnionCount(FreeSet(h.frees, h.base, h.base + h.size), LiveSet(h.live, h.base, h.size, h.next),
               Range(h.base, h.size));
  }

  /** Every byte of the active half is free or live, and none is both. */
  lemma {:induction false} FreeAndLive(h: Heap)
    requires Ok(h)
    ensures var free, live := FreeSet(h.frees, h.base, h.base + h.size), LiveSet(h.live, h.base, h.size, h.next);
            free !! live && Range(h.base, h.size) == free + live
  {
    var free, live := FreeSet(h.frees, h.base, h.base + h.size), LiveSet(h.live, h.base, h.size, h.next);
    forall x: nat ensures x in Range(h.base, h.size) <==> x in free || x in live
                  ensures !(x in free && x in live)
    {
      LiveSetIsTaken(h.live, h.base, h.size, h.next, x);
    }
  }

  /** With equal halves the other half always has room, for compaction and for saving a block. */
  lemma {:induction false} EvenHalvesSuffice(h: Heap)
    requires Ok(h) && h.size == h.spareSize
    ensures DefragFits(h)
    ensures forall p :: ReallocFits(h, p)
  {
    SpaceIsConserved(h);
    forall p ensures ReallocFits(h, p) {
      if Points(h, p) {
        TotalGrows(h.live, p.id, h.next);
      }
    }
  }
}
