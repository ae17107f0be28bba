/** Where the runs lie in the partly sorted file. */
module RunLayout {
  import opened Sequences
  import opened PairText
  import opened PairOrder
  import opened RunSpec
  import opened TextStream

  function RenderRuns(runs: seq<seq<Pair>>): (s: string)
    ensures |s| == TotalSize(runs)
  {
    if runs == [] then "" else Render(runs[0]) + RenderRuns(runs[1..])
  }

  predicate NoEmptyRun(runs: seq<seq<Pair>>) {
    forall i :: 0 <= i < |runs| ==> runs[i] != []
  }

  lemma {:induction false} RunsNotEmpty(ps: seq<Pair>, m: nat)
    requires m > 0
    ensures NoEmptyRun(Runs(ps, m))
  {
    RunsAscend(ps, m);
  }

  function TotalSize(runs: seq<seq<Pair>>): nat {
    if runs == [] then 0 else Size(runs[0]) + TotalSize(runs[1..])
  }

  /** Where run `i` starts: at the blank that ends the run before it. */
  function Boundary(runs: seq<seq<Pair>>, i: nat): nat
    requires i <= |runs|
  {
    var before := TotalSize(runs[..i]);
    if before == 0 then 0 else before - 1
  }

  lemma {:induction false} TotalSizeAppend(a: seq<seq<Pair>>, b: seq<seq<Pair>>)
    ensures TotalSize(a + b) == TotalSize(a) + TotalSize(b)
  {
    if a == [] {
      assert a + b == b;
    } else {
      TotalSizeAppend(a[1..], b);
      assert (a + b)[1..] == a[1..] + b;
    }
  }

  lemma {:induction false} RenderRunsAppend(a: seq<seq<Pair>>, b: seq<seq<Pair>>)
    ensures RenderRuns(a + b) == RenderRuns(a) + RenderRuns(b)
  {
    if a == [] {
      assert a + b == b;
    } else {
      calc {
        RenderRuns(a + b);
        { assert (a + b)[1..] == a[1..] + b && (a + b)[0] == a[0]; }
        Render(a[0]) + RenderRuns(a[1..] + b);
        { RenderRunsAppend(a[1..], b); }
        Render(a[0]) + (RenderRuns(a[1..]) + RenderRuns(b));
        { ConcatAssociative(Render(a[0]), RenderRuns(a[1..]), RenderRuns(b)); }
        RenderRuns(a) + RenderRuns(b);
      }
    }
  }

  /** Appending a run keeps the boundaries before it and puts the next one at its last blank. */
  lemma {:induction false} BoundaryAppend(runs: seq<seq<Pair>>, r: seq<Pair>)
    requires r != []
    ensures forall i :: 0 <= i <= |runs| ==> Boundary(runs + [r], i) == Boundary(runs, i)
    ensures Boundary(runs + [r], |runs| + 1) == TotalSize(runs) + Size(r) - 1
    ensures RenderRuns(runs + [r]) == RenderRuns(runs) + Render(r)
    ensures TotalSize(runs + [r]) == TotalSize(runs) + Size(r)
  {
    forall i | 0 <= i <= |runs| ensures Boundary(runs + [r], i) == Boundary(runs, i) {
      assert (runs + [r])[..i] == runs[..i];
    }
    assert (runs + [r])[..|runs| + 1] == runs + [r];
    TotalSizeAppend(runs, [r]);
    RenderRunsAppend(runs, [r]);
    assert RenderRuns([r]) == Render(r) + "" == Render(r);
  }

  lemma {:induction false} EndsInBlank(ps: seq<Pair>)
    requires ps != []
    ensures Size(ps) > 0 && Render(ps)[Size(ps) - 1] == ' '
  {
    if |ps| > 1 {
      EndsInBlank(ps[1..]);
    }
  }

  lemma {:induction false} AtShift(a: string, s: string, p: nat, t: string)
    requires At(s, p, t)
    ensures At(a + s, |a| + p, t)
  {
    assert (a + s)[|a| + p..|a| + p + |t|] == s[p..p + |t|];
  }

  lemma {:induction false} AtFront(a: string, s: string)
    ensures At(a + s, 0, a)
  {
    assert (a + s)[0..|a|] == a;
  }

  lemma {:induction false} TotalSizeStep(runs: seq<seq<Pair>>, i: nat)
    requires 0 < i <= |runs|
    ensures TotalSize(runs[..i]) == |Render(runs[0])| + TotalSize(runs[1..][..i - 1])
  {
    assert runs[..i][1..] == runs[1..][..i - 1];
  }

  lemma {:induction false} RunPosition(runs: seq<seq<Pair>>, i: nat)
    requires i < |runs|
    ensures At(RenderRuns(runs), TotalSize(runs[..i]), Render(runs[i]))
  {
    if i == 0 {
      AtFront(Render(runs[0]), RenderRuns(runs[1..]));
    } else {
      RunPosition(runs[1..], i - 1);
      AtShift(Render(runs[0]), RenderRuns(runs[1..]), TotalSize(runs[1..][..i - 1]), Render(runs[i]));
      TotalSizeStep(runs, i);
    }
  }

  lemma {:induction false} BlankBefore(runs: seq<seq<Pair>>, i: nat)
    requires 0 < i <= |runs| && runs[i - 1] != []
    ensures 0 < TotalSize(runs[..i]) <= |RenderRuns(runs)|
    ensures RenderRuns(runs)[TotalSize(runs[..i]) - 1] == ' '
  {
    BlankBehind(runs, i - 1);
    assert runs[..i - 1 + 1] == runs[..i];
  }

  /** Run `k` ends in a blank. */
  lemma {:induction false} BlankBehind(runs: seq<seq<Pair>>, k: nat)
    requires k < |runs| && runs[k] != []
    ensures 0 < TotalSize(runs[..k + 1]) <= |RenderRuns(runs)|
    ensures RenderRuns(runs)[TotalSize(runs[..k + 1]) - 1] == ' '
  {
    var s, p, t := RenderRuns(runs), TotalSize(runs[..k]), Render(runs[k]);
    SizeUpTo(runs, k);
    RunPosition(runs, k);
    EndsInBlank(runs[k]);
    BlankAt(s, p, t);
    assert TotalSize(runs[..k + 1]) == p + |t|;
  }

  lemma {:induction false} BlankAt(s: string, p: nat, t: string)
    requires At(s, p, t) && t != [] && t[|t| - 1] == ' '
    ensures s[p + |t| - 1] == ' '
  {
    assert s[p..p + |t|][|t| - 1] == s[p + |t| - 1];
  }

  /** Seeking to boundary `i` of the partly sorted file puts run `i` ahead. */
  lemma {:induction false} RunIsAhead(runs: seq<seq<Pair>>, i: nat)
    requires i < |runs| && runs[i] != [] && (i > 0 ==> runs[i - 1] != [])
    ensures Ahead(RenderRuns(runs), Boundary(runs, i), i > 0, runs[i])
    ensures Boundary(runs, i) + (if i > 0 then 1 else 0) + Size(runs[i]) - 1 == Boundary(runs, i + 1)
  {
    RunPosition(runs, i);
    SizeUpTo(runs, i);
    if i > 0 {
      BlankBefore(runs, i);
    } else {
      assert runs[..i] == [];
    }
  }

  lemma {:induction false} SizeUpTo(runs: seq<seq<Pair>>, i: nat)
    requires i < |runs|
    ensures TotalSize(runs[..i + 1]) == TotalSize(runs[..i]) + Size(runs[i])
  {
    assert runs[..i + 1] == runs[..i] + [runs[i]];
    TotalSizeAppend(runs[..i], [runs[i]]);
  }

  /** All boundaries: the starts of the runs and the end of the last one. */
  function Boundaries(runs: seq<seq<Pair>>): (bs: seq<nat>)
    ensures |bs| == |runs| + 1
    decreases |runs|
  {
    if runs == [] then [0] else Boundaries(runs[..|runs| - 1]) + [Boundary(runs, |runs|)]
  }

  lemma {:induction false} BoundariesAt(runs: seq<seq<Pair>>, i: nat)
    requires i <= |runs|
    ensures Boundaries(runs)[i] == Boundary(runs, i)
    decreases |runs|
  {
    if i < |runs| {
      var init := runs[..|runs| - 1];
      BoundariesAt(init, i);
      assert init[..i] == runs[..i];
    }
  }

  lemma {:induction false} BoundariesAppend(runs: seq<seq<Pair>>, r: seq<Pair>)
    requires r != []
    ensures Boundaries(runs + [r]) == Boundaries(runs) + [TotalSize(runs + [r]) - 1]
  {
    BoundaryAppend(runs, r);
    assert (runs + [r])[..|runs|] == runs;
  }

  /** `starts` and `limits` delimit the runs; the last start is that of the run to come. */
  ghost predicate Delimits(runs: seq<seq<Pair>>, starts: seq<nat>, limits: seq<nat>) {
    starts == Boundaries(runs) && limits == Boundaries(runs)[1..]
  }

  lemma {:induction false} DelimitsAppend(runs: seq<seq<Pair>>, r: seq<Pair>, starts: seq<nat>, limits: seq<nat>,
                                          p: nat)
    requires Delimits(runs, starts, limits) && r != [] && p + 1 == TotalSize(runs + [r])
    ensures Delimits(runs + [r], starts + [p], limits + [p])
  {
    BoundariesAppend(runs, r);
  }

  /** The runs written to `out` so far, and the pairs `pending` that are still to be written. */
  ghost predicate Progress(ps: seq<Pair>, m: nat, runs: seq<seq<Pair>>, pending: seq<Pair>, out: string)
    requires m > 0
  {
    && Runs(ps, m) == runs + Runs(pending, m)
    && TotalSize(runs) + Size(pending) == Size(ps)
    && out == RenderRuns(runs)
  }

  lemma {:induction false} ProgressStep(
    ps: seq<Pair>, m: nat, runs: seq<seq<Pair>>, buf: seq<Pair>, rest: seq<Pair>, out: string)
    requires m > 0 && Progress(ps, m, runs, buf + rest, out) && buf != []
    requires |buf| == m || (|buf| < m && rest == [])
    ensures SortSeq(buf) != [] && Size(SortSeq(buf)) == Size(buf)
    ensures Progress(ps, m, runs + [SortSeq(buf)], rest, out + Render(SortSeq(buf)))
  {
    var run := SortSeq(buf);
    RunsStep(buf, rest, m);
    SizeAppend(buf, rest);
    SortSeqSorts(buf);
    SizeOfPermutation(run, buf);
    BoundaryAppend(runs, run);
    ConcatAssociative(runs, [run], Runs(rest, m));
  }

  lemma {:induction false} ProgressDone(ps: seq<Pair>, m: nat, runs: seq<seq<Pair>>, out: string)
    requires m > 0 && Progress(ps, m, runs, [], out)
    ensures runs == Runs(ps, m) && NoEmptyRun(runs)
    ensures out == RenderRuns(runs) && TotalSize(runs) == Size(ps)
  {
    assert runs + [] == runs;
    RunsNotEmpty(ps, m);
  }

  /** The two position vectors as `PartlySort` leaves them; the limit of the last run may lie one
      byte late, behind the final blank. */
  ghost predicate Located(runs: seq<seq<Pair>>, starts: seq<nat>, limits: seq<nat>) {
    var bs := Boundaries(runs);
    starts == bs[..|runs|]
    && (limits == bs[1..] || (runs != [] && limits == bs[1..|runs|] + [TotalSize(runs)]))
  }

  lemma {:induction false} LocatedWithTail(runs: seq<seq<Pair>>, r: seq<Pair>, starts: seq<nat>, limits: seq<nat>)
    requires Delimits(runs, starts, limits) && r != []
    ensures Located(runs + [r], starts, limits + [TotalSize(runs + [r])])
  {
    BoundariesAppend(runs, r);
    var bs := Boundaries(runs + [r]);
    assert bs[..|runs| + 1] == starts && bs[1..|runs| + 1] == limits;
  }

  lemma {:induction false} LocatedWithoutTail(runs: seq<seq<Pair>>, starts: seq<nat>, limits: seq<nat>)
    requires Delimits(runs, starts, limits)
    ensures Located(runs, starts[..|runs|], limits)
  {
  }

  lemma {:induction false} LocatedAt(i: nat, runs: seq<seq<Pair>>, starts: seq<nat>, limits: seq<nat>)
    requires i < |runs| && NoEmptyRun(runs) && Located(runs, starts, limits)
    ensures |starts| == |limits| == |runs|
    ensures runs[i] != [] && (i > 0 ==> runs[i - 1] != [])
    ensures starts[i] == Boundary(runs, i)
    ensures limits[i] == Boundary(runs, i + 1) || (i == |runs| - 1 && limits[i] == TotalSize(runs))
  {
    BoundariesAt(runs, i);
    BoundariesAt(runs, i + 1);
  }

  /** The last boundary lies one byte before the end. */
  lemma {:induction false} LastBoundary(runs: seq<seq<Pair>>)
    requires runs != [] && runs[0] != []
    ensures Boundary(runs, |runs|) + 1 == TotalSize(runs)
  {
    assert runs[..|runs|] == runs;
  }

  /** The limit of a run tells whether a pair is left in it, but for the late limit of the last run. */
  lemma {:induction false} NextPair(k: nat, offset: nat, tail: seq<Pair>, runs: seq<seq<Pair>>, starts: seq<nat>,
                                    limits: seq<nat>)
    requires k < |runs| && offset + Size(tail) == Boundary(runs, k + 1)
    requires NoEmptyRun(runs) && Located(runs, starts, limits)
    ensures offset >= limits[k] ==> tail == []
    ensures offset < limits[k] && tail == [] ==> offset + 1 == TotalSize(runs)
  {
    LocatedAt(k, runs, starts, limits);
    LocatedAt(0, runs, starts, limits);
    LastBoundary(runs);
  }

  /** Every run can be read from its start. */
  lemma {:induction false} RunReady(i: nat, runs: seq<seq<Pair>>, starts: seq<nat>, limits: seq<nat>)
    requires i < |runs| && NoEmptyRun(runs) && Located(runs, starts, limits)
    ensures starts[i] < limits[i] && Ahead(RenderRuns(runs), starts[i], i > 0, runs[i])
    ensures starts[i] + (if i > 0 then 1 else 0) + Size(runs[i]) - 1 == Boundary(runs, i + 1)
  {
    LocatedAt(i, runs, starts, limits);
    LocatedAt(0, runs, starts, limits);
    RunReadyAt(i, runs, starts[i], limits[i]);
  }

  lemma {:induction false} RunReadyAt(i: nat, runs: seq<seq<Pair>>, start: nat, limit: nat)
    requires i < |runs| && runs[0] != [] && runs[i] != [] && (i > 0 ==> runs[i - 1] != [])
    requires start == Boundary(runs, i)
    requires limit == Boundary(runs, i + 1) || (i == |runs| - 1 && limit == TotalSize(runs))
    ensures start < limit && Ahead(RenderRuns(runs), start, i > 0, runs[i])
    ensures start + (if i > 0 then 1 else 0) + Size(runs[i]) - 1 == Boundary(runs, i + 1)
  {
    RunIsAhead(runs, i);
    LastBoundary(runs);
  }
}
