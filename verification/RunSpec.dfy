/** The runs of the external sort and what merging them gives, over values. */
module RunSpec {
  import opened Decimal
  import opened PairText
  import opened PairOrder
  import opened MergeSpec

  /** The sorted runs: blocks of `m` consecutive pairs, the last one possibly shorter. */
  function Runs(ps: seq<Pair>, m: nat): seq<seq<Pair>>
    requires m > 0
  {
    if ps == [] then []
    else
      var k := if |ps| < m then |ps| else m;
      [SortSeq(ps[..k])] + Runs(ps[k..], m)
  }

  /** A full buffer, or the last one, makes one run. */
  lemma {:induction false} RunsStep(buf: seq<Pair>, rest: seq<Pair>, m: nat)
    requires m > 0 && buf != []
    requires |buf| == m || (|buf| < m && rest == [])
    ensures Runs(buf + rest, m) == [SortSeq(buf)] + Runs(rest, m)
  {
    var k := |buf|;
    assert (buf + rest)[..k] == buf && (buf + rest)[k..] == rest;
  }

  /** What the external sort writes for the pairs `ps` when its buffer holds `m` of them. */
  function Merged(ps: seq<Pair>, m: nat): seq<Pair>
    requires m > 0
  {
    Drain(InitHeap(Runs(ps, m)))
  }

  /** The block of `m` consecutive pairs that index `i` falls in, `i / m`. */
  function BlockOf(i: nat, m: nat): nat
    requires m > 0
  {
    if i < m then 0 else 1 + BlockOf(i - m, m)
  }

  /** Equal pairs occur only within one block of `m` consecutive pairs. */
  predicate RepeatsStayInBlock(ps: seq<Pair>, m: nat)
    requires m > 0
  {
    forall i, j :: 0 <= i < j < |ps| && ps[i] == ps[j] ==> BlockOf(i, m) == BlockOf(j, m)
  }

  predicate BelowMarker(ps: seq<Pair>) {
    forall i :: 0 <= i < |ps| ==> ps[i].word < U64_MAX
  }

  predicate AllAscend(runs: seq<seq<Pair>>) {
    forall i :: 0 <= i < |runs| ==> runs[i] != [] && Sorted(runs[i])
  }

  lemma {:induction false} AllAscendCons(r: seq<Pair>, runs: seq<seq<Pair>>)
    requires r != [] && Sorted(r) && AllAscend(runs)
    ensures AllAscend([r] + runs)
  {
  }

  lemma {:induction false} RunsAscend(ps: seq<Pair>, m: nat)
    requires m > 0
    ensures AllAscend(Runs(ps, m))
  {
    if ps != [] {
      var k := if |ps| < m then |ps| else m;
      SortSeqSorts(ps[..k]);
      RunsAscend(ps[k..], m);
      AllAscendCons(SortSeq(ps[..k]), Runs(ps[k..], m));
    }
  }

  lemma {:induction false} InitHeapOk(runs: seq<seq<Pair>>)
    requires AllAscend(runs)
    ensures HeapOk(InitHeap(runs))
  {
    if runs != [] {
      var r := runs[|runs| - 1];
      InitHeapOk(runs[..|runs| - 1]);
      PushKeepsHeapOk(InitHeap(runs[..|runs| - 1]), Lane(r[0], r[1..]));
    }
  }

  lemma {:induction false} InitHeapNext(runs: seq<seq<Pair>>, i: nat)
    requires i < |runs|
    ensures InitHeap(runs[..i + 1]) == Push(InitHeap(runs[..i]), runs[i])
  {
    assert runs[..i + 1][..i] == runs[..i];
  }

  function RunTimes(runs: seq<seq<Pair>>, x: Pair): nat {
    if runs == [] then 0 else Times(runs[0], x) + RunTimes(runs[1..], x)
  }

  function RunsWith(runs: seq<seq<Pair>>, x: Pair): nat {
    if runs == [] then 0 else (if Times(runs[0], x) > 0 then 1 else 0) + RunsWith(runs[1..], x)
  }

  lemma {:induction false} RunsSnoc(runs: seq<seq<Pair>>, r: seq<Pair>, x: Pair)
    ensures RunTimes(runs + [r], x) == RunTimes(runs, x) + Times(r, x)
    ensures RunsWith(runs + [r], x) == RunsWith(runs, x) + (if Times(r, x) > 0 then 1 else 0)
  {
    if runs == [] {
      assert runs + [r] == [r];
    } else {
      RunsSnoc(runs[1..], r, x);
      assert (runs + [r])[1..] == runs[1..] + [r];
    }
  }

  /** The heap holds every run whole. */
  ghost predicate Loaded(runs: seq<seq<Pair>>) {
    forall x :: Unread(InitHeap(runs), x) == RunTimes(runs, x) && LanesWith(InitHeap(runs), x) == RunsWith(runs, x)
  }

  lemma {:induction false} InitHeapBounds(runs: seq<seq<Pair>>, x: Pair)
    requires AllAscend(runs)
    ensures Unread(InitHeap(runs), x) <= RunTimes(runs, x)
    ensures LanesWith(InitHeap(runs), x) <= RunsWith(runs, x)
  {
    if runs != [] {
      var init, r := runs[..|runs| - 1], runs[|runs| - 1];
      assert runs == init + [r];
      InitHeapBounds(init, x);
      RunsSnoc(init, r, x);
      InitHeapOk(init);
      PushBlockedOrAdds(InitHeap(init), r, x);
    }
  }

  lemma {:induction false} PushBlockedOrAdds(h: seq<Lane>, r: seq<Pair>, x: Pair)
    requires HeapOk(h) && r != []
    ensures if HasHead(h, r[0]) then Push(h, r) == h else
              && Unread(Push(h, r), x) == Unread(h, x) + Times(r, x)
              && LanesWith(Push(h, r), x) == LanesWith(h, x) + (if Times(r, x) > 0 then 1 else 0)
  {
    var l := Lane(r[0], r[1..]);
    if HasHead(h, r[0]) {
      PushBlocked(h, l);
    } else {
      PushAdds(h, l, x);
    }
  }

  /** Filling the heap loads every run, or loses pairs of a run that shares a pair with another. */
  lemma {:induction false} InitHeapLoads(runs: seq<seq<Pair>>) returns (lossy: bool, lost: Pair)
    requires AllAscend(runs)
    ensures !lossy ==> Loaded(runs)
    ensures lossy ==> Unread(InitHeap(runs), lost) < RunTimes(runs, lost) && RunsWith(runs, lost) > 1
  {
    lossy, lost := false, Pair(0, 0);
    if runs != [] {
      var init, r := runs[..|runs| - 1], runs[|runs| - 1];
      assert runs == init + [r];
      lossy, lost := InitHeapLoads(init);
      InitHeapOk(init);
      if lossy {
        RunsSnoc(init, r, lost);
        PushBlockedOrAdds(InitHeap(init), r, lost);
      } else if HasHead(InitHeap(init), r[0]) {
        lossy, lost := true, r[0];
        RunsSnoc(init, r, lost);
        PushBlockedOrAdds(InitHeap(init), r, lost);
        LanesOfUnread(InitHeap(init), lost);
      } else {
        forall x ensures Unread(InitHeap(runs), x) == RunTimes(runs, x)
                 ensures LanesWith(InitHeap(runs), x) == RunsWith(runs, x)
        {
          RunsSnoc(init, r, x);
          PushBlockedOrAdds(InitHeap(init), r, x);
        }
      }
    }
  }

  lemma {:induction false} TimesAppend(a: seq<Pair>, b: seq<Pair>, x: Pair)
    ensures Times(a + b, x) == Times(a, x) + Times(b, x)
  {
    if a == [] {
      assert a + b == b;
    } else {
      TimesAppend(a[1..], b, x);
      assert (a + b)[1..] == a[1..] + b;
    }
  }

  lemma {:induction false} TimesSorted(s: seq<Pair>, x: Pair)
    ensures Times(SortSeq(s), x) == Times(s, x)
  {
    SortSeqSorts(s);
    TimesIsMultiplicity(s, x);
    TimesIsMultiplicity(SortSeq(s), x);
  }

  lemma {:induction false} RunsPartition(ps: seq<Pair>, m: nat, x: Pair)
    requires m > 0
    ensures RunTimes(Runs(ps, m), x) == Times(ps, x)
  {
    if ps != [] {
      var k := if |ps| < m then |ps| else m;
      RunsPartition(ps[k..], m, x);
      TimesSorted(ps[..k], x);
      TimesAppend(ps[..k], ps[k..], x);
      assert ps == ps[..k] + ps[k..];
    }
  }

  predicate OneBlock(ps: seq<Pair>, m: nat, x: Pair)
    requires m > 0
  {
    forall i, j :: 0 <= i < j < |ps| && ps[i] == x && ps[j] == x ==> BlockOf(i, m) == BlockOf(j, m)
  }

  lemma {:induction false} SpansBlocks(ps: seq<Pair>, m: nat, x: Pair)
    requires 0 < m <= |ps| && x in ps[..m] && x in ps[m..]
    ensures !OneBlock(ps, m, x)
  {
    var i :| 0 <= i < m && ps[..m][i] == x;
    var j :| 0 <= j < |ps[m..]| && ps[m..][j] == x;
    assert ps[i] == x && ps[j + m] == x;
    assert BlockOf(i, m) == 0 && BlockOf(j + m, m) == 1 + BlockOf(j, m);
  }

  lemma {:induction false} OneBlockRest(ps: seq<Pair>, m: nat, x: Pair)
    requires 0 < m <= |ps| && OneBlock(ps, m, x)
    ensures OneBlock(ps[m..], m, x)
  {
    var rest := ps[m..];
    forall i, j | 0 <= i < j < |rest| && rest[i] == x && rest[j] == x ensures BlockOf(i, m) == BlockOf(j, m) {
      assert ps[i + m] == x && ps[j + m] == x;
      assert BlockOf(i + m, m) == 1 + BlockOf(i, m) && BlockOf(j + m, m) == 1 + BlockOf(j, m);
    }
  }

  lemma {:induction false} OneBlockJoin(ps: seq<Pair>, m: nat, x: Pair)
    requires 0 < m <= |ps| && OneBlock(ps[m..], m, x) && !(x in ps[..m] && x in ps[m..])
    ensures OneBlock(ps, m, x)
  {
    var head, rest := ps[..m], ps[m..];
    forall i, j | 0 <= i < j < |ps| && ps[i] == x && ps[j] == x ensures BlockOf(i, m) == BlockOf(j, m) {
      assert i < m ==> head[i] == x;
      assert m <= j ==> rest[j - m] == x;
      assert m <= i ==> rest[i - m] == x;
    }
  }

  lemma {:induction false} OneBlockStep(ps: seq<Pair>, m: nat, x: Pair)
    requires 0 < m <= |ps|
    ensures OneBlock(ps, m, x) <==> OneBlock(ps[m..], m, x) && !(x in ps[..m] && x in ps[m..])
  {
    if x in ps[..m] && x in ps[m..] {
      SpansBlocks(ps, m, x);
    } else if OneBlock(ps, m, x) {
      OneBlockRest(ps, m, x);
    } else if OneBlock(ps[m..], m, x) {
      OneBlockJoin(ps, m, x);
    }
  }

  /** A pair is in at most one run exactly when its occurrences stay in one block. */
  lemma {:induction false} RunsWithOneBlock(ps: seq<Pair>, m: nat, x: Pair)
    requires m > 0
    ensures RunsWith(Runs(ps, m), x) > 0 <==> x in ps
    ensures RunsWith(Runs(ps, m), x) <= 1 <==> OneBlock(ps, m, x)
  {
    if ps != [] {
      var k := if |ps| < m then |ps| else m;
      RunsWithOneBlock(ps[k..], m, x);
      TimesSorted(ps[..k], x);
      TimesPositive(ps[..k], x);
      assert ps == ps[..k] + ps[k..];
      if |ps| < m {
        assert forall i :: 0 <= i < |ps| ==> BlockOf(i, m) == 0;
      } else {
        OneBlockStep(ps, m, x);
      }
    }
  }

  /** Whatever the input, the sort writes an ascending sequence of pairs it was given, none too often. */
  lemma {:induction false} MergedAscends(ps: seq<Pair>, m: nat)
    requires m > 0
    ensures Sorted(Merged(ps, m))
    ensures forall x :: Times(Merged(ps, m), x) <= Times(ps, x)
  {
    RunsAscend(ps, m);
    InitHeapOk(Runs(ps, m));
    DrainAscends(InitHeap(Runs(ps, m)));
    forall x ensures Times(Merged(ps, m), x) <= Times(ps, x) {
      DrainInventsNothing(InitHeap(Runs(ps, m)), x);
      InitHeapBounds(Runs(ps, m), x);
      RunsPartition(ps, m, x);
    }
  }

  lemma {:induction false} FirstIsLoaded(runs: seq<seq<Pair>>, i: nat)
    requires AllAscend(runs) && i < |runs|
    ensures HasHead(InitHeap(runs), runs[i][0])
  {
    var init, r := runs[..|runs| - 1], runs[|runs| - 1];
    if i < |init| {
      FirstIsLoaded(init, i);
    }
    InsertKeepsHeads(InitHeap(init), Lane(r[0], r[1..]), runs[i][0]);
  }

  /** Whatever collides, the least pair of every buffer load is in the sorted file, unless its word is the marker. */
  lemma {:induction false} LeastOfLoadIsWritten(ps: seq<Pair>, m: nat, i: nat)
    requires m > 0 && i < |Runs(ps, m)|
    ensures Runs(ps, m)[i] != []
    ensures Runs(ps, m)[i][0].word < U64_MAX ==> Runs(ps, m)[i][0] in Merged(ps, m)
  {
    RunsAscend(ps, m);
    InitHeapOk(Runs(ps, m));
    FirstIsLoaded(Runs(ps, m), i);
    if Runs(ps, m)[i][0].word < U64_MAX {
      HeadsAreWritten(InitHeap(Runs(ps, m)), Runs(ps, m)[i][0]);
    }
  }

  ghost predicate SameTimes(a: seq<Pair>, b: seq<Pair>) {
    forall x :: Times(a, x) == Times(b, x)
  }

  lemma {:induction false} SameTimesIsPermutation(a: seq<Pair>, b: seq<Pair>)
    ensures SameTimes(a, b) <==> multiset(a) == multiset(b)
  {
    forall x ensures Times(a, x) == multiset(a)[x] && Times(b, x) == multiset(b)[x] {
      TimesIsMultiplicity(a, x);
      TimesIsMultiplicity(b, x);
    }
    if SameTimes(a, b) {
      forall x ensures multiset(a)[x] == multiset(b)[x] {
        assert Times(a, x) == Times(b, x);
      }
    }
  }

  lemma {:induction false} MergedCounts(ps: seq<Pair>, m: nat)
    requires m > 0
    ensures Merged(ps, m) == SortSeq(ps) <==> SameTimes(Merged(ps, m), ps)
  {
    var out := Merged(ps, m);
    SortSeqSorts(ps);
    MergedAscends(ps, m);
    SameTimesIsPermutation(out, ps);
    if SameTimes(out, ps) {
      SortedIsUnique(out, SortSeq(ps));
    }
  }

  /** No pair is in two runs. */
  ghost predicate RunsDisjoint(runs: seq<seq<Pair>>) {
    forall x :: RunsWith(runs, x) <= 1
  }

  lemma {:induction false} RunsDisjointByBlocks(ps: seq<Pair>, m: nat)
    requires m > 0
    ensures RunsDisjoint(Runs(ps, m)) <==> RepeatsStayInBlock(ps, m)
  {
    forall x ensures RunsWith(Runs(ps, m), x) <= 1 <==> OneBlock(ps, m, x) {
      RunsWithOneBlock(ps, m, x);
    }
    if RepeatsStayInBlock(ps, m) {
      forall x ensures RunsWith(Runs(ps, m), x) <= 1 {
        assert OneBlock(ps, m, x);
      }
    }
    if RunsDisjoint(Runs(ps, m)) {
      forall i, j | 0 <= i < j < |ps| && ps[i] == ps[j] ensures BlockOf(i, m) == BlockOf(j, m) {
        assert RunsWith(Runs(ps, m), ps[i]) <= 1;
        assert OneBlock(ps, m, ps[i]);
      }
    }
  }

  /** With every run in the heap, the heap's conditions are the runs' conditions. */
  lemma {:induction false} LoadedHeap(ps: seq<Pair>, m: nat)
    requires m > 0 && Loaded(Runs(ps, m))
    ensures var h := InitHeap(Runs(ps, m));
            && HeapOk(h)
            && (Disjoint(h) <==> RunsDisjoint(Runs(ps, m)))
            && (NoMarker(h) <==> BelowMarker(ps))
            && (Delivers(h) <==> SameTimes(Merged(ps, m), ps))
  {
    var runs := Runs(ps, m);
    var h := InitHeap(runs);
    RunsAscend(ps, m);
    InitHeapOk(runs);
    forall x
      ensures Unread(h, x) == Times(ps, x) && LanesWith(h, x) == RunsWith(runs, x)
      ensures Times(ps, x) > 0 <==> x in ps
    {
      RunsPartition(ps, m, x);
      TimesPositive(ps, x);
    }
    if RunsDisjoint(runs) {
      forall x ensures LanesWith(h, x) <= 1 { assert RunsWith(runs, x) <= 1; }
    }
    if Disjoint(h) {
      forall x ensures RunsWith(runs, x) <= 1 { assert LanesWith(h, x) <= 1; }
    }
  }

  /**
   The external sort writes the ascending permutation of its input exactly when equal pairs never
   meet from two runs and no word is the end marker 2^64 - 1.
   */
  lemma {:induction false} SortIsExact(ps: seq<Pair>, m: nat)
    requires m > 0
    ensures Merged(ps, m) == SortSeq(ps) <==> RepeatsStayInBlock(ps, m) && BelowMarker(ps)
  {
    var runs := Runs(ps, m);
    RunsAscend(ps, m);
    InitHeapOk(runs);
    MergedCounts(ps, m);
    RunsDisjointByBlocks(ps, m);
    var lossy, lost := InitHeapLoads(runs);
    if lossy {
      DrainInventsNothing(InitHeap(runs), lost);
      RunsPartition(ps, m, lost);
      assert Times(Merged(ps, m), lost) < Times(ps, lost);
    } else {
      LoadedHeap(ps, m);
      DrainIsExact(InitHeap(runs));
    }
  }
}
