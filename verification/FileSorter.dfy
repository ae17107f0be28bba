/** The external merge sort. */
module FileSorter {
  import opened Sequences
  import opened Decimal
  import opened PairText
  import opened PairOrder
  import opened MergeSpec
  import opened RunSpec
  import opened RunLayout
  import opened TextStream

  /** A heap entry: the run it comes from, where to read on, and the pair it stands for. */
  datatype IdsStruct = IdsStruct(file_pos_idx: nat, next_offset: nat, word: u64, doc: u64)

  function KeyOf(ids: IdsStruct): Pair {
    Pair(ids.word, ids.doc)
  }

  /** The buffer size in pairs that the constructor computes from the file size. */
  function MaxPairs(filesize: nat): (m: nat)
    ensures m >= 12
  {
    (filesize / 64 + 128) / 16 + 4
  }

  /** The reserved capacity of the two position vectors. */
  function Reserved(filesize: nat): nat {
    filesize / (2 * MaxPairs(filesize)) + 2
  }

  /** The pair `ids` stands for and what follows it in its run lie where the entry says. */
  ghost predicate EntryOk(ids: IdsStruct, l: Lane, runs: seq<seq<Pair>>) {
    && ids.file_pos_idx < |runs|
    && KeyOf(ids) == l.head
    && ids.next_offset + Size(l.tail) == Boundary(runs, ids.file_pos_idx + 1)
    && Ahead(RenderRuns(runs), ids.next_offset, true, l.tail)
  }

  /** Entry by entry, the set and the abstract heap of the merge stand for the same. */
  ghost predicate InStep(heap: seq<IdsStruct>, lanes: seq<Lane>, runs: seq<seq<Pair>>) {
    |heap| == |lanes| && forall i :: 0 <= i < |heap| ==> EntryOk(heap[i], lanes[i], runs)
  }

  lemma {:induction false} InStepTail(heap: seq<IdsStruct>, lanes: seq<Lane>, runs: seq<seq<Pair>>)
    requires InStep(heap, lanes, runs) && heap != []
    ensures InStep(heap[1..], lanes[1..], runs) && EntryOk(heap[0], lanes[0], runs)
  {
    forall i | 0 <= i < |heap[1..]|
      ensures EntryOk(heap[1..][i], lanes[1..][i], runs)
    {
      assert EntryOk(heap[i + 1], lanes[i + 1], runs);
    }
  }

  lemma {:induction false} InStepCons(ids: IdsStruct, l: Lane, heap: seq<IdsStruct>, lanes: seq<Lane>,
                                      runs: seq<seq<Pair>>)
    requires InStep(heap, lanes, runs) && EntryOk(ids, l, runs)
    ensures InStep([ids] + heap, [l] + lanes, runs)
  {
    var heap', lanes' := [ids] + heap, [l] + lanes;
    forall i | 0 <= i < |heap'|
      ensures EntryOk(heap'[i], lanes'[i], runs)
    {
      assert i > 0 ==> heap'[i] == heap[i - 1] && lanes'[i] == lanes[i - 1];
    }
  }

  /** Inserting an entry into the set and its lane into the abstract heap go hand in hand. */
  lemma {:induction false} InsertInStep(
    heap: seq<IdsStruct>, lanes: seq<Lane>, runs: seq<seq<Pair>>, ids: IdsStruct, l: Lane)
    requires InStep(heap, lanes, runs) && EntryOk(ids, l, runs)
    ensures InStep(InsertBy(heap, ids, KeyOf), InsertBy(lanes, l, HeadOf), runs)
  {
    if heap != [] {
      InStepTail(heap, lanes, runs);
    }
    if heap == [] || Less(KeyOf(ids), KeyOf(heap[0])) {
      InStepCons(ids, l, heap, lanes, runs);
    } else if KeyOf(ids) != KeyOf(heap[0]) {
      InsertInStep(heap[1..], lanes[1..], runs, ids, l);
      InStepCons(heap[0], lanes[0], InsertBy(heap[1..], ids, KeyOf), InsertBy(lanes[1..], l, HeadOf), runs);
    }
  }

  /** The least entry: where its run goes on, and whether anything is left of it. */
  lemma {:induction false} LeastEntry(
    heap: seq<IdsStruct>, lanes: seq<Lane>, runs: seq<seq<Pair>>, file: string, size: nat, starts: seq<nat>,
    limits: seq<nat>)
    requires PreparedAs(runs, file, size, starts, limits) && InStep(heap, lanes, runs) && heap != []
    ensures lanes != [] && InStep(heap[1..], lanes[1..], runs)
    ensures heap[0].file_pos_idx < |runs| == |limits| && KeyOf(heap[0]) == lanes[0].head
    ensures var k, p, tail := heap[0].file_pos_idx, heap[0].next_offset, lanes[0].tail;
            && Ahead(file, p, true, tail)
            && p + Size(tail) == Boundary(runs, k + 1)
            && (p >= limits[k] ==> tail == [])
            && (tail == [] && p < limits[k] ==> p + 1 == |file|)
  {
    InStepTail(heap, lanes, runs);
    var k, p, tail := heap[0].file_pos_idx, heap[0].next_offset, lanes[0].tail;
    NextPair(k, p, tail, runs, starts, limits);
    LocatedAt(k, runs, starts, limits);
  }

  /** The partly sorted file holds the runs, and the positions delimit them. */
  ghost predicate PreparedAs(runs: seq<seq<Pair>>, file: string, size: nat, starts: seq<nat>, limits: seq<nat>) {
    NoEmptyRun(runs) && file == RenderRuns(runs) && size == TotalSize(runs) && Located(runs, starts, limits)
  }

  class FileSorter {
    const unsortedfile_: string
    var partly_sorted_file_: string
    var filesize_: nat
    var available_memory_: nat
    var max_pairs_: nat
    var initialize_: bool
    var sort_buf_: array<Pair>
    var file_positions_: seq<nat>
    var next_file_positions_: seq<nat>
    var heap_: seq<IdsStruct>
    ghost var runs: seq<seq<Pair>>
    ghost var lanes: seq<Lane>

    constructor (unsorted: string)
      ensures unsortedfile_ == unsorted && filesize_ == |unsorted|
      ensures max_pairs_ == MaxPairs(|unsorted|) == sort_buf_.Length && fresh(sort_buf_)
      ensures |unsorted| / 64 + 176 < 16 * sort_buf_.Length <= |unsorted| / 64 + 192
      ensures initialize_ && file_positions_ == next_file_positions_ == [] && heap_ == []
    {
      unsortedfile_ := unsorted;
      partly_sorted_file_ := "";
      initialize_ := true;
      filesize_ := |unsorted|;
      available_memory_ := |unsorted| / 64 + 128;
      max_pairs_ := (|unsorted| / 64 + 128) / 16 + 4;
      sort_buf_ := new Pair[(|unsorted| / 64 + 128) / 16 + 4](_ => Pair(0, 0));
      file_positions_, next_file_positions_, heap_ := [], [], [];
      runs, lanes := [], [];
    }

    /** The partly sorted file holds the runs one after the other and the position vectors locate them. */
    ghost predicate Prepared()
      reads `runs, `partly_sorted_file_, `filesize_, `file_positions_, `next_file_positions_
    {
      PreparedAs(runs, partly_sorted_file_, filesize_, file_positions_, next_file_positions_)
    }

    /** Sorts buffer-sized blocks of the unsorted file, noting where each ends in that file. */
    method PartlySort(ghost ps: seq<Pair>)
      requires unsortedfile_ == Render(ps) && filesize_ == |unsortedfile_|
      requires max_pairs_ == sort_buf_.Length > 0
      requires file_positions_ == next_file_positions_ == []
      modifies `runs, `file_positions_, `next_file_positions_, `partly_sorted_file_, sort_buf_
      ensures Prepared() && runs == Runs(ps, max_pairs_)
    {
      var fin := new InStream(unsortedfile_);
      file_positions_ := file_positions_ + [0];
      runs := [];
      var fout, read_pairs := ReadAll(fin, ps);
      LastRun(fout, read_pairs, ps, []);
    }

    /** The reading loop: whole runs are written, the pairs after the last of them stay in the buffer. */
    method ReadAll(fin: InStream, ghost ps: seq<Pair>) returns (fout: string, read_pairs: nat)
      requires fin.Good() && fin.pos == 0 && fin.data == Render(ps) && max_pairs_ == sort_buf_.Length > 0
      requires runs == [] && file_positions_ == [0] && next_file_positions_ == []
      modifies `runs, `file_positions_, `next_file_positions_, sort_buf_, fin
      ensures read_pairs < max_pairs_
      ensures Progress(ps, max_pairs_, runs, sort_buf_[..read_pairs] + [], fout)
      ensures Delimits(runs, file_positions_, next_file_positions_)
    {
      fout, read_pairs := "", 0;
      var cur_w: u64, cur_d: u64 := 0, 0;
      ghost var rest, lead := ps, false;
      assert sort_buf_[..0] + rest == ps;
      assert [] + Runs(ps, max_pairs_) == Runs(ps, max_pairs_);
      while true
        invariant fin.Good() && read_pairs < max_pairs_
        invariant Ahead(fin.data, fin.pos, lead, rest)
        invariant fin.pos + (if lead then 1 else 0) + Size(rest) == Size(ps)
        invariant Progress(ps, max_pairs_, runs, sort_buf_[..read_pairs] + rest, fout)
        invariant Delimits(runs, file_positions_, next_file_positions_)
        decreases |rest|
      {
        var ok;
        ok, cur_w, cur_d := fin.ReadPair(cur_w, cur_d, lead, rest);
        if !ok {
          break;
        }
        fout, read_pairs := BufferPair(fin, fout, read_pairs, Pair(cur_w, cur_d), ps, rest);
        rest, lead := rest[1..], true;
      }
    }

    /** Puts the pair just read into the buffer, and ends the run when that fills it. */
    method BufferPair(
      fin: InStream, fout: string, n: nat, p: Pair, ghost ps: seq<Pair>, ghost rest: seq<Pair>)
      returns (fout': string, read_pairs: nat)
      requires n < max_pairs_ == sort_buf_.Length && rest != [] && rest[0] == p
      requires fin.Good() && fin.pos + 1 + Size(rest[1..]) == Size(ps)
      requires Progress(ps, max_pairs_, runs, sort_buf_[..n] + rest, fout)
      requires Delimits(runs, file_positions_, next_file_positions_)
      modifies sort_buf_, `runs, `file_positions_, `next_file_positions_, fin
      ensures fin.Good() && fin.pos == old(fin.pos) && read_pairs < max_pairs_
      ensures Progress(ps, max_pairs_, runs, sort_buf_[..read_pairs] + rest[1..], fout')
      ensures Delimits(runs, file_positions_, next_file_positions_)
    {
      ghost var pending := sort_buf_[..n] + rest;
      sort_buf_[n] := p;
      fout', read_pairs := fout, n + 1;
      assert sort_buf_[..read_pairs] + rest[1..] == pending;
      if read_pairs >= max_pairs_ {
        fout' := EndRun(fin, fout, read_pairs, ps, rest[1..]);
        read_pairs := 0;
        assert sort_buf_[..0] + rest[1..] == rest[1..];
      }
    }

    /** The buffer is full: flushes it and notes how far the unsorted file has been read. */
    method EndRun(fin: InStream, fout: string, read_pairs: nat, ghost ps: seq<Pair>, ghost rest: seq<Pair>)
      returns (fout': string)
      requires fin.Good() && fin.pos + 1 + Size(rest) == Size(ps)
      requires 0 < read_pairs == max_pairs_ == sort_buf_.Length
      requires Progress(ps, max_pairs_, runs, sort_buf_[..read_pairs] + rest, fout)
      requires Delimits(runs, file_positions_, next_file_positions_)
      modifies sort_buf_, `runs, `file_positions_, `next_file_positions_, fin
      ensures fin.Good() && fin.pos == old(fin.pos)
      ensures Progress(ps, max_pairs_, runs, rest, fout')
      ensures Delimits(runs, file_positions_, next_file_positions_)
    {
      ghost var before := runs;
      ghost var run;
      fout', run := FlushRun(fout, read_pairs, ps, rest);
      var cur_offset := fin.Tellg();
      DelimitsAppend(before, run, file_positions_, next_file_positions_, fin.pos);
      var position: int := if cur_offset == -1 then filesize_ else cur_offset;
      file_positions_ := file_positions_ + [position];
      next_file_positions_ := next_file_positions_ + [position];
    }

    /** The unsorted file is read: flushes what is left in the buffer. */
    method LastRun(fout: string, read_pairs: nat, ghost ps: seq<Pair>, ghost rest: seq<Pair>)
      requires read_pairs <= max_pairs_ == sort_buf_.Length && 0 < max_pairs_
      requires filesize_ == Size(ps) && rest == []
      requires Progress(ps, max_pairs_, runs, sort_buf_[..read_pairs] + rest, fout)
      requires Delimits(runs, file_positions_, next_file_positions_)
      modifies sort_buf_, `runs, `file_positions_, `next_file_positions_, `partly_sorted_file_
      ensures Prepared() && runs == Runs(ps, max_pairs_)
    {
      if read_pairs > 0 {
        FlushTail(fout, read_pairs, ps);
      } else {
        assert sort_buf_[..read_pairs] + rest == [];
        partly_sorted_file_ := fout;
        ProgressDone(ps, max_pairs_, runs, partly_sorted_file_);
        LocatedWithoutTail(runs, file_positions_, next_file_positions_);
        file_positions_ := file_positions_[..|file_positions_| - 1];
      }
    }

    /** Flushes a buffer that is not full and ends the last run at the end of the file. */
    method FlushTail(fout: string, read_pairs: nat, ghost ps: seq<Pair>)
      requires 0 < read_pairs <= max_pairs_ == sort_buf_.Length && filesize_ == Size(ps)
      requires Progress(ps, max_pairs_, runs, sort_buf_[..read_pairs] + [], fout)
      requires Delimits(runs, file_positions_, next_file_positions_)
      modifies sort_buf_, `runs, `next_file_positions_, `partly_sorted_file_
      ensures Prepared() && runs == Runs(ps, max_pairs_)
    {
      ghost var before, run := runs, [];
      partly_sorted_file_, run := FlushRun(fout, read_pairs, ps, []);
      ProgressDone(ps, max_pairs_, runs, partly_sorted_file_);
      LocatedWithTail(before, run, file_positions_, next_file_positions_);
      next_file_positions_ := next_file_positions_ + [filesize_];
    }

    /** Sorts the first `n` pairs of the buffer and appends them to the output as a new run. */
    method FlushRun(fout: string, n: nat, ghost ps: seq<Pair>, ghost rest: seq<Pair>)
      returns (fout': string, ghost run: seq<Pair>)
      requires 0 < n <= max_pairs_ == sort_buf_.Length && (n == max_pairs_ || rest == [])
      requires Progress(ps, max_pairs_, runs, sort_buf_[..n] + rest, fout)
      modifies sort_buf_, `runs
      ensures Progress(ps, max_pairs_, runs, rest, fout')
      ensures run != [] && runs == old(runs) + [run]
    {
      ProgressStep(ps, max_pairs_, runs, sort_buf_[..n], rest, fout);
      StdSort(sort_buf_, n);
      fout' := WriteRun(fout, n);
      run := sort_buf_[..n];
      runs := runs + [run];
    }

    method WriteRun(fout: string, n: nat) returns (fout': string)
      requires n <= sort_buf_.Length
      ensures fout' == fout + Render(sort_buf_[..n])
    {
      fout' := fout;
      for i := 0 to n
        invariant fout' == fout + Render(sort_buf_[..i])
      {
        WritePair(fout', sort_buf_[i]);
        RenderSnoc(sort_buf_[..i], sort_buf_[i]);
        ConcatAssociative(fout, Render(sort_buf_[..i]), RenderPair(sort_buf_[i]));
        assert sort_buf_[..i + 1] == sort_buf_[..i] + [sort_buf_[i]];
        fout' := fout' + Show(sort_buf_[i].word) + " " + Show(sort_buf_[i].doc) + " ";
      }
    }

    /** The abstract heap: before the first call it is still to be filled from the runs. */
    ghost function Pending(): seq<Lane>
      reads `runs, `lanes, `initialize_
    {
      if initialize_ then InitHeap(runs) else lanes
    }

    /** The heap agrees with the abstract heap. */
    ghost predicate Merging()
      reads `runs, `lanes, `initialize_, `heap_
    {
      if initialize_ then heap_ == [] else InStep(heap_, lanes, runs)
    }

    /** Reads the pair at `offset`, if one is left there, and inserts it for run `idx`. */
    method InsertNext(fin: InStream, idx: nat, offset: nat, ghost lead: bool, ghost run: seq<Pair>)
      requires fin.Good() && fin.data == RenderRuns(runs) && idx < |runs|
      requires InStep(heap_, lanes, runs)
      requires Ahead(fin.data, offset, lead, run)
      requires run != [] ==> offset + (if lead then 1 else 0) + Size(run) - 1 == Boundary(runs, idx + 1)
      requires run == [] ==> offset + (if lead then 1 else 0) == |fin.data|
      modifies `heap_, `lanes, fin
      ensures fin.Good() && InStep(heap_, lanes, runs) && lanes == Push(old(lanes), run)
    {
      var cur_w: u64, cur_d: u64 := U64_MAX, U64_MAX;
      fin.Seekg(offset);
      var ok;
      ok, cur_w, cur_d := fin.ReadPair(cur_w, cur_d, lead, run);
      if ok {
        InsertRead(fin, idx, cur_w, cur_d, run);
      } else {
        fin.Reopen();
      }
    }

    /** Inserts the pair just read, with the position behind it. */
    method InsertRead(fin: InStream, idx: nat, cur_w: u64, cur_d: u64, ghost run: seq<Pair>)
      requires fin.Good() && InStep(heap_, lanes, runs) && idx < |runs| && run != [] && run[0] == Pair(cur_w, cur_d)
      requires fin.pos + Size(run[1..]) == Boundary(runs, idx + 1) && Ahead(RenderRuns(runs), fin.pos, true, run[1..])
      modifies `heap_, `lanes, fin
      ensures fin.Good() && InStep(heap_, lanes, runs) && lanes == Push(old(lanes), run)
    {
      ghost var l := Lane(run[0], run[1..]);
      assert EntryOk(IdsStruct(idx, fin.pos, cur_w, cur_d), l, runs);
      var next_offset := fin.Tellg();
      var ids := IdsStruct(idx, if next_offset == -1 then filesize_ else next_offset, cur_w, cur_d);
      InsertInStep(heap_, lanes, runs, ids, l);
      heap_ := InsertBy(heap_, ids, KeyOf);
      lanes := InsertBy(lanes, l, HeadOf);
    }

    /** Takes the least pair out of the heap and replaces it by the next pair of its run. */
    method GetMin(fin: InStream) returns (word: u64, doc: u64)
      requires Prepared() && fin.Good() && fin.data == partly_sorted_file_ && Merging()
      modifies `heap_, `lanes, `initialize_, fin
      ensures fin.Good() && Merging() && !initialize_
      ensures old(Pending()) == [] ==> word == doc == U64_MAX && Pending() == []
      ensures old(Pending()) != [] ==> Pair(word, doc) == old(Pending())[0].head && Pending() == Pop(old(Pending()))
    {
      if initialize_ {
        FillHeap(fin);
        initialize_ := false;
      }
      if heap_ == [] {
        return U64_MAX, U64_MAX;
      }
      var cur_min := heap_[0];
      TakeLeast(fin);
      return cur_min.word, cur_min.doc;
    }

    /** Erases the first entry and inserts the next pair of its run, if it has one. */
    method TakeLeast(fin: InStream)
      requires Prepared() && fin.Good() && fin.data == partly_sorted_file_
      requires InStep(heap_, lanes, runs) && heap_ != []
      modifies `heap_, `lanes, fin
      ensures fin.Good() && InStep(heap_, lanes, runs) && lanes == Pop(old(lanes))
    {
      LeastEntry(heap_, lanes, runs, partly_sorted_file_, filesize_, file_positions_, next_file_positions_);
      var cur_min := heap_[0];
      ghost var least := lanes[0];
      heap_, lanes := heap_[1..], lanes[1..];
      ReadOn(fin, cur_min, least.tail);
    }

    /** Inserts the pair that follows an entry in its run, if the recorded limit says that there may be one. */
    method ReadOn(fin: InStream, cur_min: IdsStruct, ghost tail: seq<Pair>)
      requires fin.Good() && fin.data == RenderRuns(runs) && InStep(heap_, lanes, runs)
      requires cur_min.file_pos_idx < |runs| == |next_file_positions_|
      requires Ahead(fin.data, cur_min.next_offset, true, tail)
      requires cur_min.next_offset + Size(tail) == Boundary(runs, cur_min.file_pos_idx + 1)
      requires cur_min.next_offset >= next_file_positions_[cur_min.file_pos_idx] ==> tail == []
      requires tail == [] && cur_min.next_offset < next_file_positions_[cur_min.file_pos_idx] ==>
                 cur_min.next_offset + 1 == |fin.data|
      modifies `heap_, `lanes, fin
      ensures fin.Good() && InStep(heap_, lanes, runs) && lanes == Push(old(lanes), tail)
    {
      if cur_min.next_offset < next_file_positions_[cur_min.file_pos_idx] {
        InsertNext(fin, cur_min.file_pos_idx, cur_min.next_offset, true, tail);
      }
    }

    /** Inserts the first pair of every run. */
    method FillHeap(fin: InStream)
      requires Prepared() && fin.Good() && fin.data == partly_sorted_file_ && heap_ == []
      modifies `heap_, `lanes, fin
      ensures fin.Good() && InStep(heap_, lanes, runs) && lanes == InitHeap(runs)
    {
      lanes := [];
      for i := 0 to |file_positions_|
        invariant Prepared() && fin.Good()
        invariant InStep(heap_, lanes, runs) && lanes == InitHeap(runs[..i])
      {
        InsertFirst(fin, i);
      }
      assert runs[..|runs|] == runs;
    }

    /** Inserts the first pair of run `i`. */
    method InsertFirst(fin: InStream, i: nat)
      requires Prepared() && fin.Good() && fin.data == partly_sorted_file_ && i < |runs|
      requires InStep(heap_, lanes, runs) && lanes == InitHeap(runs[..i])
      modifies `heap_, `lanes, fin
      ensures fin.Good() && InStep(heap_, lanes, runs) && lanes == InitHeap(runs[..i + 1])
    {
      RunReady(i, runs, file_positions_, next_file_positions_);
      InitHeapNext(runs, i);
      if file_positions_[i] < next_file_positions_[i] {
        InsertNext(fin, i, file_positions_[i], i > 0, runs[i]);
      }
    }

    /** Sorts the pairs of the unsorted file. */
    method Sort(ghost ps: seq<Pair>) returns (sorted: string)
      requires unsortedfile_ == Render(ps) && filesize_ == |unsortedfile_|
      requires max_pairs_ == sort_buf_.Length > 0
      requires initialize_ && file_positions_ == next_file_positions_ == [] && heap_ == []
      modifies this, sort_buf_
      ensures sorted == Render(Merged(ps, old(max_pairs_)))
    {
      PartlySort(ps);
      sorted := MergeRuns();
    }

    /** Writes the least pair until the end marker comes. */
    method MergeRuns() returns (sorted: string)
      requires Prepared() && Merging()
      modifies `heap_, `lanes, `initialize_
      ensures sorted == Render(Drain(old(Pending())))
    {
      var fin := new InStream(partly_sorted_file_);
      sorted := WriteAll(fin);
    }

    /** The loop that writes one pair after the other until the marker comes. */
    method WriteAll(fin: InStream) returns (sorted: string)
      requires Prepared() && fin.Good() && fin.data == partly_sorted_file_ && Merging()
      modifies `heap_, `lanes, `initialize_, fin
      ensures sorted == Render(Drain(old(Pending())))
    {
      sorted := "";
      while true
        invariant fin.Good() && Merging()
        invariant sorted + Render(Drain(Pending())) == Render(Drain(old(Pending())))
        decreases Total(Pending())
      {
        var more;
        sorted, more := WriteMin(fin, sorted);
        if !more {
          break;
        }
      }
    }

    /** One turn of the loop: the least pair is written, unless it is the marker. */
    method WriteMin(fin: InStream, sorted0: string) returns (sorted: string, more: bool)
      requires Prepared() && fin.Good() && fin.data == partly_sorted_file_ && Merging()
      modifies `heap_, `lanes, `initialize_, fin
      ensures fin.Good() && Merging()
      ensures !more ==> sorted == sorted0 + Render(Drain(old(Pending())))
      ensures more ==> Total(Pending()) < Total(old(Pending()))
      ensures more ==> sorted + Render(Drain(Pending())) == sorted0 + Render(Drain(old(Pending())))
    {
      ghost var h := Pending();
      var word, doc := GetMin(fin);
      more := word != U64_MAX;
      sorted := sorted0;
      if more {
        WriteNext(sorted, h);
        sorted := sorted + Show(word) + " " + Show(doc) + " ";
      }
    }
  }

  /** Writing the least pair of the heap and going on with the rest. */
  lemma {:induction false} WriteNext(sorted: string, h: seq<Lane>)
    requires h != [] && h[0].head.word != U64_MAX
    ensures Total(Pop(h)) < Total(h)
    ensures sorted + Show(h[0].head.word) + " " + Show(h[0].head.doc) + " " + Render(Drain(Pop(h)))
         == sorted + Render(Drain(h))
  {
    PopShrinks(h);
    WritePair(sorted, h[0].head);
    ConcatAssociative(sorted, RenderPair(h[0].head), Render(Drain(Pop(h))));
    assert Drain(h)[1..] == Drain(Pop(h));
  }
}
