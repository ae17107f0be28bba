/** How many runs there can be, and what that bounds. */
module SorterBounds {
  import opened PairText
  import opened MergeSpec
  import opened RunSpec
  import FS = FileSorter

  /** All runs but the last are full. */
  lemma {:induction false} RunsAreFull(ps: seq<Pair>, m: nat)
    requires m > 0 && ps != []
    ensures |Runs(ps, m)| > 0 && (|Runs(ps, m)| - 1) * m < |ps|
  {
    if |ps| > m {
      RunsAreFull(ps[m..], m);
      Distribute(|Runs(ps[m..], m)|, m);
    }
  }

  lemma {:induction false} Distribute(r: nat, m: nat)
    requires r > 0
    ensures r * m == (r - 1) * m + m
  {
  }

  lemma {:induction false} Multiples(a: nat, b: nat, m: nat)
    requires a <= b
    ensures a * m <= b * m
    decreases b - a
  {
    if a < b {
      Multiples(a, b - 1, m);
      assert b * m == (b - 1) * m + m;
    }
  }

  lemma {:induction false} QuotientBound(a: nat, b: nat, f: nat)
    requires b > 0 && a * b <= f
    ensures a <= f / b
  {
    var q := f / b;
    assert f == q * b + f % b;
    assert (q + 1) * b == q * b + b;
    if q + 1 <= a {
      Multiples(q + 1, a, b);
      assert false;
    }
  }

  /** The bounded memory of the sort: at 16 bytes a pair the buffer is a 64th of the file and a constant. */
  lemma {:induction false} BufferIsBounded(f: nat)
    ensures f / 64 + 176 < 16 * FS.MaxPairs(f) <= f / 64 + 192
  {
  }

  /** The capacity of the position vectors is the number of buffer loads of the shortest pairs, and two. */
  lemma {:induction false} ReservedIsBounded(f: nat)
    ensures FS.Reserved(f) >= 2
    ensures (FS.Reserved(f) - 2) * (2 * FS.MaxPairs(f)) <= f < (FS.Reserved(f) - 1) * (2 * FS.MaxPairs(f))
  {
    var m := 2 * FS.MaxPairs(f);
    assert f == (f / m) * m + f % m;
    assert (f / m + 1) * m == (f / m) * m + m;
  }

  /** The buffer takes a 256th part of the most pairs a file of `f` bytes can hold, and more. */
  lemma {:induction false} BufferIsLarge(f: nat)
    ensures f / 4 < 256 * FS.MaxPairs(f)
  {
    assert 16 * ((f / 64 + 128) / 16) >= f / 64 + 113;
    assert 64 * (f / 64) >= f - 63;
  }

  lemma {:induction false} FewRuns(r: nat, n: nat, f: nat, m: nat)
    requires r > 0 && m > 0 && (r - 1) * m < n && 4 * n <= f && f / 4 < 256 * m
    ensures r <= 256
  {
    if 256 <= r - 1 {
      Multiples(256, r - 1, m);
      assert false;
    }
  }

  lemma {:induction false} CapacitySuffices(r: nat, n: nat, f: nat, m: nat)
    requires r > 0 && m > 0 && (r - 1) * m < n && 4 * n <= f
    ensures r + 1 <= f / (2 * m) + 2
  {
    assert (r - 1) * (2 * m) == 2 * ((r - 1) * m);
    QuotientBound(r - 1, 2 * m, f);
  }

  /**
   Whatever the size of the file, there are at most 256 runs, and the position vectors, which hold
   one position more than runs while the file is being split, stay within their reserved capacity.
   */
  lemma {:induction false} AtMost256Runs(ps: seq<Pair>)
    ensures |Runs(ps, FS.MaxPairs(Size(ps)))| <= 256
    ensures |Runs(ps, FS.MaxPairs(Size(ps)))| + 1 <= FS.Reserved(Size(ps))
  {
    if ps != [] {
      var f, m := Size(ps), FS.MaxPairs(Size(ps));
      RunsAreFull(ps, m);
      BufferIsLarge(f);
      FewRuns(|Runs(ps, m)|, |ps|, f, m);
      CapacitySuffices(|Runs(ps, m)|, |ps|, f, m);
    }
  }

  lemma {:induction false} InsertGrowsByOne<T>(h: seq<T>, x: T, key: T -> Pair)
    ensures |InsertBy(h, x, key)| <= |h| + 1
  {
    if h != [] {
      InsertGrowsByOne(h[1..], x, key);
    }
  }

  lemma {:induction false} InitHeapSize(runs: seq<seq<Pair>>)
    ensures |InitHeap(runs)| <= |runs|
  {
    if runs != [] {
      var r := runs[|runs| - 1];
      InitHeapSize(runs[..|runs| - 1]);
      if r != [] {
        InsertGrowsByOne(InitHeap(runs[..|runs| - 1]), Lane(r[0], r[1..]), HeadOf);
      }
    }
  }

  /** The heap after `k` pops. */
  function HeapAfter(h: seq<Lane>, k: nat): seq<Lane> {
    if k == 0 then h else
      var h' := HeapAfter(h, k - 1);
      if h' == [] then [] else Pop(h')
  }

  lemma {:induction false} PopsDoNotGrow(h: seq<Lane>, k: nat)
    ensures |HeapAfter(h, k)| <= |h|
  {
    if k > 0 {
      PopsDoNotGrow(h, k - 1);
      var h' := HeapAfter(h, k - 1);
      if h' != [] && h'[0].tail != [] {
        InsertGrowsByOne(h'[1..], Lane(h'[0].tail[0], h'[0].tail[1..]), HeadOf);
      }
    }
  }

  /** At every moment of the merge the heap holds at most 256 entries. */
  lemma {:induction false} HeapStaysSmall(ps: seq<Pair>, k: nat)
    ensures |HeapAfter(InitHeap(Runs(ps, FS.MaxPairs(Size(ps)))), k)| <= 256
  {
    var runs := Runs(ps, FS.MaxPairs(Size(ps)));
    AtMost256Runs(ps);
    InitHeapSize(runs);
    PopsDoNotGrow(InitHeap(runs), k);
  }
}
