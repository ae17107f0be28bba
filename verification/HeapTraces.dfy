/** Runs: what holds after any sequence of operations on an allocator. */
module HeapTraces {
  import opened Bytes
  import opened FreeList
  import opened HeapModel
  import opened HeapLaws
  import opened Compaction
  import opened HeapSpace

  /** The calls a client can make, and a write through a handle. */
  datatype Op =
    | DoAlloc(n: nat)
    | DoFree(p: Pointer)
    | DoRealloc(p: Pointer, n: nat)
    | DoDefrag
    | DoWrite(id: nat, at: nat, value: byte)

  /** Writing one byte inside the block of a live handle; anything else a client must not do. */
  function Write(h: Heap, id: nat, at: nat, value: byte): Heap
    requires Ok(h)
  {
    if id in h.live && at < h.live[id].size then
      LiveInBuffer(h, id);
      h.(mem := h.mem[h.live[id].begin + at := value])
    else h
  }

  /** The spare half has room where an operation copies to it. */
  predicate Allowed(h: Heap, op: Op) {
    match op
    case DoRealloc(p, _) => ReallocFits(h, p)
    case DoDefrag => DefragFits(h)
    case _ => true
  }

  function Step(h: Heap, op: Op): Result
    requires Ok(h) && Allowed(h, op)
  {
    match op
    case DoAlloc(n) => Alloc(h, n)
    case DoFree(p) => Free(h, p)
    case DoRealloc(p, n) => Realloc(h, p, n)
    case DoDefrag => Result(Defrag(h), Null, Done)
    case DoWrite(id, at, value) => Result(Write(h, id, at, value), Null, Done)
  }

  /** The two halves of the buffer are those of `h`, possibly with their parts exchanged. */
  predicate SameHalves(h: Heap, g: Heap) {
    (g.base, g.size, g.spare, g.spareSize) == (h.base, h.size, h.spare, h.spareSize)
    || (g.base, g.size, g.spare, g.spareSize) == (h.spare, h.spareSize, h.base, h.size)
  }

  /** Every operation, successful or not, keeps the invariant and the two halves. */
  lemma {:induction false} StepKeepsOk(h: Heap, op: Op)
    requires Ok(h) && Allowed(h, op)
    ensures Ok(Step(h, op).heap) && SameHalves(h, Step(h, op).heap)
    ensures Step(h, op).outcome != InvalidFree
  {
    match op
    case DoAlloc(n) => AllocKeepsOk(h, n);
    case DoFree(p) => FreeKeepsOk(h, p);
    case DoRealloc(p, n) => ReallocKeepsOk(h, p, n);
    case DoDefrag => DefragKeepsOk(h);
    case DoWrite(id, at, value) =>
  }

  lemma {:induction false} ReallocSizes(h: Heap, id: nat, n: nat)
    requires Ok(h) && id in h.live && h.live[id].size <= h.spareSize
    ensures var r := Realloc(h, Handle(id), n);
            SameHalves(h, r.heap) && r.outcome != InvalidFree
  {
    SaveAndFreeView(h, id);
  }

  lemma {:induction false} ReallocKeepsOk(h: Heap, p: Pointer, n: nat)
    requires Ok(h) && ReallocFits(h, p)
    ensures var r := Realloc(h, p, n);
            Ok(r.heap) && SameHalves(h, r.heap) && r.outcome != InvalidFree
  {
    if Points(h, p) {
      ReallocKeepsView(h, p.id, n);
      ReallocSizes(h, p.id, n);
    } else {
      AllocKeepsOk(h, n);
    }
  }

  /** Wherever a run of operations copies to the spare half, there is room. */
  predicate HasRoom(h: Heap, ops: seq<Op>)
    requires Ok(h)
    decreases |ops|
  {
    ops != [] ==>
      Allowed(h, ops[0]) && (StepKeepsOk(h, ops[0]); HasRoom(Step(h, ops[0]).heap, ops[1..]))
  }

  /** A run of operations. */
  function Run(h: Heap, ops: seq<Op>): (g: Heap)
    requires Ok(h) && HasRoom(h, ops)
    ensures Ok(g) && SameHalves(h, g)
    decreases |ops|
  {
    if ops == [] then h
    else
      StepKeepsOk(h, ops[0]);
      Run(Step(h, ops[0]).heap, ops[1..])
  }

  /** The operation does not free, reallocate or write to handle `id`. */
  predicate Spares(op: Op, id: nat) {
    match op
    case DoFree(p) => p != Handle(id)
    case DoRealloc(p, _) => p != Handle(id)
    case DoWrite(k, _, _) => k != id
    case _ => true
  }

  /** One operation leaves the bytes behind every handle it does not name. */
  lemma {:induction false} StepSpares(h: Heap, op: Op, id: nat)
    requires Ok(h) && Allowed(h, op) && id in h.live && Spares(op, id)
    ensures Ok(Step(h, op).heap) && id in View(Step(h, op).heap) && View(Step(h, op).heap)[id] == View(h)[id]
  {
    StepKeepsOk(h, op);
    match op
    case DoAlloc(n) => AllocSpares(h, n, id);
    case DoFree(p) => FreeKeepsView(h, p);
    case DoRealloc(p, n) => ReallocSpares(h, p, n, id);
    case DoDefrag => DefragKeepsView(h);
    case DoWrite(k, at, value) => WriteSpares(h, k, at, value, id);
  }

  lemma {:induction false} WriteSpares(h: Heap, k: nat, at: nat, value: byte, id: nat)
    requires Ok(h) && id in h.live && k != id
    ensures Ok(Write(h, k, at, value)) && View(Write(h, k, at, value))[id] == View(h)[id]
  {
    if k in h.live && at < h.live[k].size {
      assert Apart(h.live[k], h.live[id]);
      LiveInBuffer(h, k);
      LiveInBuffer(h, id);
      OtherBytesAreOk(h, h.mem[h.live[k].begin + at := value]);
      UpdateElsewhere(h.mem, h.live[k].begin + at, value, h.live[id]);
    }
  }

  lemma {:induction false} UpdateElsewhere(mem: seq<byte>, x: nat, value: byte, b: Block)
    requires x < |mem| && !b.Holds(x)
    ensures Shows(mem[x := value], b) == Shows(mem, b)
  {
  }

  /** Two views that agree up to one key each agree on the others. */
  lemma {:induction false} KeptBy(a: map<nat, seq<byte>>, i: nat, b: map<nat, seq<byte>>, j: nat, id: nat)
    requires a - {i} == b - {j} && id in b && id != i && id != j
    ensures id in a && a[id] == b[id]
  {
    assert id in b - {j};
    assert (a - {i})[id] == (b - {j})[id];
  }

  lemma {:induction false} AllocSpares(h: Heap, n: nat, id: nat)
    requires Ok(h) && id in h.live
    ensures Ok(Alloc(h, n).heap) && id in View(Alloc(h, n).heap) && View(Alloc(h, n).heap)[id] == View(h)[id]
  {
    AllocKeepsView(h, n);
    assert View(h) - {h.next} == View(h);
    KeptBy(View(Alloc(h, n).heap), h.next, View(h), h.next, id);
  }

  lemma {:induction false} ReallocSpares(h: Heap, p: Pointer, n: nat, id: nat)
    requires Ok(h) && ReallocFits(h, p) && id in h.live && p != Handle(id)
    ensures Ok(Realloc(h, p, n).heap) && id in View(Realloc(h, p, n).heap)
    ensures View(Realloc(h, p, n).heap)[id] == View(h)[id]
  {
    if Points(h, p) {
      ReallocKeepsView(h, p.id, n);
      var g := Realloc(h, p, n).heap;
      if Realloc(h, p, n).p.Handle? {
        KeptBy(View(g), h.next, View(h), p.id, id);
      }
    } else {
      AllocSpares(h, n, id);
    }
  }

  /**
   Isolation over whole runs: however other handles are allocated, freed, resized and written to, and
   however often the allocator compacts, a handle keeps showing the same bytes. The halves may differ.
   */
  lemma {:induction false} RunSpares(h: Heap, ops: seq<Op>, id: nat)
    requires Ok(h) && HasRoom(h, ops) && id in h.live
    requires forall i :: 0 <= i < |ops| ==> Spares(ops[i], id)
    ensures id in View(Run(h, ops)) && View(Run(h, ops))[id] == View(h)[id]
    decreases |ops|
  {
    if ops != [] {
      StepKeepsOk(h, ops[0]);
      StepSpares(h, ops[0], id);
      RunSpares(Step(h, ops[0]).heap, ops[1..], id);
    }
  }

  /** A write through a handle shows there. */
  lemma {:induction false} WriteShows(h: Heap, id: nat, at: nat, value: byte)
    requires Ok(h) && id in h.live && at < h.live[id].size
    ensures Ok(Write(h, id, at, value))
    ensures View(Write(h, id, at, value))[id] == View(h)[id][at := value]
  {
    LiveInBuffer(h, id);
    SliceUpdate(h.mem, h.live[id].begin, h.live[id].End(), at, value);
  }

  lemma {:induction false} SliceUpdate(mem: seq<byte>, from: nat, to: nat, at: nat, value: byte)
    requires from + at < to <= |mem|
    ensures mem[from + at := value][from..to] == mem[from..to][at := value]
  {
  }

  /** After any run from a new allocator, the active half is one of the two it started with and is exactly divided into
      free and live bytes. */
  lemma {:induction false} RunConservesSpace(mem: seq<byte>, ops: seq<Op>)
    requires Ok(Init(mem)) && HasRoom(Init(mem), ops)
    ensures var h := Run(Init(mem), ops);
            Ok(h) && SameHalves(Init(mem), h) && SizeOf(h.frees) + Total(h.live, h.next) == h.size
  {
    SpaceIsConserved(Run(Init(mem), ops));
  }

  /** Over an even buffer that is so after every sequence of operations. */
  lemma {:induction false} EvenRunConservesSpace(mem: seq<byte>, ops: seq<Op>)
    requires |mem| % 2 == 0
    ensures Ok(Init(mem)) && HasRoom(Init(mem), ops)
    ensures var h := Run(Init(mem), ops);
            Ok(h) && h.size == |mem| / 2 == SizeOf(h.frees) + Total(h.live, h.next)
  {
    InitIsOk(mem);
    EqualHalvesHaveRoom(Init(mem), ops);
    RunConservesSpace(mem, ops);
  }

  /** With an odd buffer the halves differ, and a block that fills the larger one has nowhere to be copied to. */
  lemma {:induction false} OddBufferRunsOutOfRoom(mem: seq<byte>)
    requires |mem| % 2 == 1
    ensures Ok(Init(mem)) && DefragFits(Init(mem)) && Ok(Defrag(Init(mem)))
    ensures var g := Alloc(Defrag(Init(mem)), |mem| - |mem| / 2);
            g.outcome == Done && Ok(g.heap) && Points(g.heap, g.p) && !DefragFits(g.heap) && !ReallocFits(g.heap, g.p)
  {
    var h, n := Init(mem), |mem| - |mem| / 2;
    InitIsOk(mem);
    assert Total(h.live, 1) == Total(h.live, 0) == 0;
    DefragKeepsOk(h);
    DefragMakesRoom(h, n);
    AllocKeepsOk(Defrag(h), n);
    TotalGrows(Alloc(Defrag(h), n).heap.live, 1, 2);
  }

  lemma {:induction false} EqualHalvesHaveRoom(h: Heap, ops: seq<Op>)
    requires Ok(h) && h.size == h.spareSize
    ensures HasRoom(h, ops)
    decreases |ops|
  {
    if ops != [] {
      EvenHalvesSuffice(h);
      StepKeepsOk(h, ops[0]);
      EqualHalvesHaveRoom(Step(h, ops[0]).heap, ops[1..]);
    }
  }

  lemma {:induction false} SecondDefragHasNoRoom(mem: seq<byte>)
    requires |mem| % 2 == 1 && Ok(Init(mem))
    ensures !HasRoom(Init(mem), [DoDefrag, DoAlloc(|mem| - |mem| / 2), DoDefrag])
  {
    OddBufferRunsOutOfRoom(mem);
    var n := |mem| - |mem| / 2;
    var ops := [DoDefrag, DoAlloc(n), DoDefrag];
    assert ops[1..] == [DoAlloc(n), DoDefrag] && ops[1..][1..] == [DoDefrag];
    assert !HasRoom(Alloc(Defrag(Init(mem)), n).heap, [DoDefrag]);
  }

  /** Every run on a new allocator always has room to copy if and only if the buffer has an even size. */
  lemma {:induction false} RoomIffEven(mem: seq<byte>)
    ensures Ok(Init(mem))
    ensures (forall ops :: HasRoom(Init(mem), ops)) <==> |mem| % 2 == 0
  {
    InitIsOk(mem);
    if |mem| % 2 == 0 {
      forall ops ensures HasRoom(Init(mem), ops) {
        EqualHalvesHaveRoom(Init(mem), ops);
      }
    } else {
      SecondDefragHasNoRoom(mem);
    }
  }
}
