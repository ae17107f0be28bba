/** What the reverse index program guarantees, and how it relates to the in-memory checker. */
module IndexLaws {
  import opened Sequences
  import opened Decimal
  import opened Bytes
  import opened DocStream
  import opened PairText
  import opened PairOrder
  import opened MergeSpec
  import opened RunSpec
  import opened WordIndex
  import opened IndexFormat
  import opened ReverseIndex
  import FS = FileSorter
  import C = Checker
  import R = IndexReader

  /** The input conditions under which the external sort loses nothing. */
  predicate SortsExactly(ps: seq<Pair>) {
    RepeatsStayInBlock(ps, FS.MaxPairs(Size(ps))) && BelowMarker(ps)
  }

  lemma {:induction false} ExactSort(ps: seq<Pair>)
    ensures SortedPairs(ps) == SortSeq(ps) <==> SortsExactly(ps)
  {
    SortIsExact(ps, FS.MaxPairs(Size(ps)));
  }

  lemma {:induction false} CutShape(ps: seq<Pair>, qs: seq<Pair>, junk: u64)
    ensures var ks := Ascending(WordsOf(ps)); SameShape(CutTable(ks, ps, qs, 0, junk), TableFor(ks, ps))
  {
    var ks := Ascending(WordsOf(ps));
    forall i | 0 <= i < |ks|
      ensures var e := CutTable(ks, ps, qs, 0, junk)[i]; e.word == ks[i] && |e.docs| == |DocsOf(ps, ks[i])|
    {
      CutRow(ks, ps, qs, 0, junk, i);
    }
  }

  /**
   The law the stress test checks. On every input, however malformed, whose pairs the external sort
   keeps, the program and the in-memory checker write the same bytes exactly when the documents of
   every word come in nondecreasing order.
   */
  lemma {:induction false} SameBytes(data: seq<byte>, junk: u64)
    requires SortsExactly(PairsOf(data))
    ensures ReverseIndexBytes(data, junk) == C.CheckerBytes(data) <==> DocsAscend(PairsOf(data))
  {
    var ps := PairsOf(data);
    ExactSort(ps);
    IndexOfSorted(ps, junk);
    TablesAgree(ps);
    if ReverseIndexBytes(data, junk) == C.CheckerBytes(data) {
      IndexInjective(SortedTable(ps), InputTable(ps));
    }
  }

  /**
   Without any condition on the input: the two files are the same exactly when the documents read from the
   sorted file, the last one over and over once it has ended, are the documents of all words in input order.
   */
  lemma {:induction false} SameBytesExactly(data: seq<byte>, junk: u64)
    ensures var ps := PairsOf(data);
            var docs := AllDocs(Ascending(WordsOf(ps)), ps);
            ReverseIndexBytes(data, junk) == C.CheckerBytes(data)
            <==> DocsRead(SortedPairs(ps), 0, |docs|, junk) == docs
  {
    var ps := PairsOf(data);
    var ks := Ascending(WordsOf(ps));
    CutIsInput(ks, ps, SortedPairs(ps), 0, junk);
    if ReverseIndexBytes(data, junk) == C.CheckerBytes(data) {
      CutShape(ps, SortedPairs(ps), junk);
      IndexInjective(CutTable(ks, ps, SortedPairs(ps), 0, junk), TableFor(ks, ps));
    }
  }

  lemma {:induction false} NoneTooOften(a: seq<Pair>, b: seq<Pair>)
    requires |a| == |b| && forall x :: Times(a, x) <= Times(b, x)
    ensures multiset(a) == multiset(b)
  {
    forall x ensures multiset(a)[x] <= multiset(b)[x] {
      TimesIsMultiplicity(a, x);
      TimesIsMultiplicity(b, x);
    }
    assert |multiset(a)| == |a| && |multiset(b)| == |b|;
    assert multiset(b) == multiset(a) + (multiset(b) - multiset(a));
  }

  /**
   The program never looks whether the sorted stream ends with its last list. On every input it takes
   as many pairs as there are in the sorted file if and only if the sort was exact.
   */
  lemma {:induction false} StreamIsUsedUp(data: seq<byte>)
    ensures var ps := PairsOf(data);
            |AllDocs(Ascending(WordsOf(ps)), ps)| == |SortedPairs(ps)| <==> SortsExactly(ps)
  {
    var ps := PairsOf(data);
    CountsFillTheStream(ps);
    ExactSort(ps);
    MergedAscends(ps, FS.MaxPairs(Size(ps)));
    if |SortedPairs(ps)| == |ps| {
      NoneTooOften(SortedPairs(ps), ps);
      SortSeqSorts(ps);
      SortedIsUnique(SortedPairs(ps), SortSeq(ps));
    }
  }

  lemma {:induction false} SortedInStep(ps: seq<Pair>, i: nat, m: nat)
    requires i < |SortedTable(ps)| && m < |SortedTable(ps)[i].docs|
    ensures var e := SortedTable(ps)[i];
            Finds(SortSeq(ps), |AllDocs(Ascending(WordsOf(ps))[..i], ps)| + m, Pair(e.word, e.docs[m]))
  {
    InputIsGrouped(ps);
    CountedRowIsOwn(Ascending(WordsOf(ps)), ps, SortSeq(ps), SortedTable(ps), i, m);
  }

  /** After an exact sort the words read, which the program ignores, are the words it writes the lists for. */
  lemma {:induction false} WordsStayInStep(data: seq<byte>, i: nat, m: nat)
    requires SortsExactly(PairsOf(data)) && i < |SortedTable(PairsOf(data))|
    requires m < |SortedTable(PairsOf(data))[i].docs|
    ensures var ps := PairsOf(data);
            var e := SortedTable(ps)[i];
            Finds(SortedPairs(ps), |AllDocs(Ascending(WordsOf(ps))[..i], ps)| + m, Pair(e.word, e.docs[m]))
  {
    ExactSort(PairsOf(data));
    SortedInStep(PairsOf(data), i, m);
  }

  /** Strictly increasing ids, no word twice in a document, no end marker, counts that fit. */
  predicate WellFormed(ds: seq<Doc>) {
    && CountsFit(ds)
    && (forall i, j :: 0 <= i < j < |ds| ==> ds[i].id < ds[j].id)
    && (forall d :: d in ds ==> forall i, j :: 0 <= i < j < |d.words| ==> d.words[i] != d.words[j])
    && (forall d :: d in ds ==> forall i :: 0 <= i < |d.words| ==> d.words[i] < U64_MAX)
  }

  lemma {:induction false} PairsAbove(ds: seq<Doc>, lo: int)
    requires forall i :: 0 <= i < |ds| ==> lo < ds[i].id
    ensures forall i :: 0 <= i < |PairsOfDocs(ds)| ==> lo < PairsOfDocs(ds)[i].doc
  {
    if ds != [] {
      PairsAbove(ds[1..], lo);
    }
  }

  lemma {:induction false} PairsBelowMarker(ds: seq<Doc>)
    requires WellFormed(ds)
    ensures BelowMarker(PairsOfDocs(ds))
  {
    if ds != [] {
      assert ds[0] in ds;
      PairsBelowMarker(ds[1..]);
    }
  }

  predicate Distinct(ps: seq<Pair>) {
    forall i, j :: 0 <= i < j < |ps| ==> ps[i] != ps[j]
  }

  predicate DocsOrdered(ps: seq<Pair>) {
    forall i, j :: 0 <= i < j < |ps| ==> ps[i].doc <= ps[j].doc
  }

  /** Putting one document's pairs before pairs of later documents. */
  lemma {:induction false} DocumentFirst(d: Doc, b: seq<Pair>)
    requires forall i, j :: 0 <= i < j < |d.words| ==> d.words[i] != d.words[j]
    requires Distinct(b) && DocsOrdered(b) && forall i :: 0 <= i < |b| ==> d.id < b[i].doc
    ensures Distinct(PairsOfDoc(d) + b) && DocsOrdered(PairsOfDoc(d) + b)
  {
  }

  /** The pairs of a well-formed file are distinct and come in the order of their documents. */
  lemma {:induction false} OrderedPairs(ds: seq<Doc>)
    requires WellFormed(ds)
    ensures Distinct(PairsOfDocs(ds)) && DocsOrdered(PairsOfDocs(ds))
  {
    if ds != [] {
      assert ds[0] in ds;
      OrderedPairs(ds[1..]);
      PairsAbove(ds[1..], ds[0].id);
      DocumentFirst(ds[0], PairsOfDocs(ds[1..]));
    }
  }

  lemma {:induction false} DocsAtLeast(ps: seq<Pair>, w: u64, lo: u64)
    requires forall i :: 0 <= i < |ps| ==> lo <= ps[i].doc
    ensures forall i :: 0 <= i < |DocsOf(ps, w)| ==> lo <= DocsOf(ps, w)[i]
  {
    if ps != [] {
      DocsAtLeast(ps[1..], w, lo);
    }
  }

  lemma {:induction false} AscendingDocs(ps: seq<Pair>, w: u64)
    requires DocsOrdered(ps)
    ensures Nondecreasing(DocsOf(ps, w))
  {
    if ps != [] {
      AscendingDocs(ps[1..], w);
      DocsAtLeast(ps[1..], w, ps[0].doc);
    }
  }

  /** For every well-formed input file the program and the checker write the same bytes. */
  lemma {:induction false} WellFormedInput(ds: seq<Doc>, junk: u64)
    requires WellFormed(ds)
    ensures ReverseIndexBytes(EncodeDocs(ds), junk) == C.CheckerBytes(EncodeDocs(ds))
  {
    PairsOfEncodedDocs(ds);
    PairsBelowMarker(ds);
    OrderedPairs(ds);
    var ps := PairsOfDocs(ds);
    forall w | w in WordsOf(ps) ensures Nondecreasing(DocsOf(ps, w)) {
      AscendingDocs(ps, w);
    }
    SameBytes(EncodeDocs(ds), junk);
  }

  lemma {:induction false} IndexOfExactSort(data: seq<byte>, junk: u64)
    requires SortsExactly(PairsOf(data))
    ensures ReverseIndexBytes(data, junk) == IndexBytes(SortedTable(PairsOf(data)))
  {
    var ps := PairsOf(data);
    ExactSort(ps);
    IndexOfSorted(ps, junk);
  }

  /** The table the program writes. */
  function ProgramTable(data: seq<byte>, junk: u64): seq<Entry> {
    var ps := PairsOf(data);
    CutTable(Ascending(WordsOf(ps)), ps, SortedPairs(ps), 0, junk)
  }

  /** On every input, every header entry holds a word and the exact position of its posting list. */
  lemma {:induction false} OffsetPointsAtList(data: seq<byte>, junk: u64, k: nat)
    requires k < |WordsOf(PairsOf(data))|
    ensures Listed(ReverseIndexBytes(data, junk), ProgramTable(data, junk), k)
    ensures ProgramTable(data, junk)[k].word == Ascending(WordsOf(PairsOf(data)))[k]
  {
    OffsetsAreExact(ProgramTable(data, junk), k);
    CutRow(Ascending(WordsOf(PairsOf(data))), PairsOf(data), SortedPairs(PairsOf(data)), 0, junk, k);
  }

  /** After an exact sort that list holds the word's documents in ascending order. */
  lemma {:induction false} OffsetPointsAtSortedList(data: seq<byte>, junk: u64, k: nat)
    requires SortsExactly(PairsOf(data)) && k < |SortedTable(PairsOf(data))|
    ensures Listed(ReverseIndexBytes(data, junk), SortedTable(PairsOf(data)), k)
  {
    IndexOfExactSort(data, junk);
    ListedIn(ReverseIndexBytes(data, junk), SortedTable(PairsOf(data)), k);
  }

  /** The program's own decoder recovers what the program wrote, if no count or offset was cut off. */
  lemma {:induction false} ReadBack(data: seq<byte>, junk: u64, rows: seq<(u64, u64)>, lists: seq<seq<u64>>)
    requires |ReverseIndexBytes(data, junk)| < U64_LIMIT && R.CountsFit32(InputTable(PairsOf(data)))
    ensures R.IsIndex(ReverseIndexBytes(data, junk), ProgramTable(data, junk))
    ensures R.Decoded(ReverseIndexBytes(data, junk), rows, lists)
       <==> rows == R.HeaderRows(ProgramTable(data, junk), 16 * (|lists| + 1)) + [(0, 0)]
            && lists == R.Lists(ProgramTable(data, junk))
  {
    CutShape(PairsOf(data), SortedPairs(PairsOf(data)), junk);
    R.DecodedIsTable(ReverseIndexBytes(data, junk), ProgramTable(data, junk), rows, lists);
  }

  /** After an exact sort the decoder gets every word's documents in ascending order. */
  lemma {:induction false} ReadBackSorted(data: seq<byte>, junk: u64, rows: seq<(u64, u64)>, lists: seq<seq<u64>>)
    requires |ReverseIndexBytes(data, junk)| < U64_LIMIT && R.CountsFit32(InputTable(PairsOf(data)))
    requires SortsExactly(PairsOf(data)) && R.Decoded(ReverseIndexBytes(data, junk), rows, lists)
    ensures R.Rebuilt(rows, lists) == SortedTable(PairsOf(data))
  {
    var ps := PairsOf(data);
    ExactSort(ps);
    IndexOfSorted(ps, junk);
    ReadBack(data, junk, rows, lists);
  }

  lemma {:induction false} ListedIn(file: seq<byte>, table: seq<Entry>, k: nat)
    requires k < |table| && file == IndexBytes(table)
    ensures Listed(file, table, k)
  {
    OffsetsAreExact(table, k);
  }

  /** That posting list is the word's documents, as many as it has pairs, ascending and complete. */
  lemma {:induction false} PostingListOf(ps: seq<Pair>, k: nat)
    requires k < |SortedTable(ps)|
    ensures var e := SortedTable(ps)[k];
            && |e.docs| == |DocsOf(ps, e.word)| > 0
            && Nondecreasing(e.docs)
            && (forall d: u64 :: d in e.docs <==> Pair(e.word, d) in ps)
  {
    var w := SortedTable(ps)[k].word;
    assert w in Ascending(WordsOf(ps));
    WordsHaveDocs(ps, w);
    SortedListOf(ps, w);
  }

  /** The sorted documents of a word are those it has, ascending. */
  lemma {:induction false} SortedListOf(ps: seq<Pair>, w: u64)
    ensures var docs := DocsOf(SortSeq(ps), w);
            && |docs| == |DocsOf(ps, w)|
            && Nondecreasing(docs)
            && (forall d: u64 :: d in docs <==> Pair(w, d) in ps)
  {
    SortedDocs(ps, w);
    forall d: u64 ensures d in DocsOf(SortSeq(ps), w) <==> Pair(w, d) in ps {
      DocsAreMembers(SortSeq(ps), w, d);
      SortKeepsMembers(ps, Pair(w, d));
    }
  }

  lemma {:induction false} SortKeepsMembers(ps: seq<Pair>, p: Pair)
    ensures p in SortSeq(ps) <==> p in ps
  {
    SortSeqSorts(ps);
    assert p in multiset(ps) <==> p in ps;
    assert p in multiset(SortSeq(ps)) <==> p in SortSeq(ps);
  }

  lemma {:induction false} DocsAreMembers(ps: seq<Pair>, w: u64, d: u64)
    ensures d in DocsOf(ps, w) <==> Pair(w, d) in ps
  {
    if ps != [] {
      DocsAreMembers(ps[1..], w, d);
      assert ps == [ps[0]] + ps[1..];
    }
  }

  // --- files whose pairs are lost -------------------------------------------------

  /** The same one-word document, written `n` times. */
  function Copies(n: nat): (ds: seq<Doc>)
    ensures |ds| == n && forall i :: 0 <= i < n ==> ds[i] == Doc(0, [0])
  {
    seq(n, _ => Doc(0, [0]))
  }

  function Repeated(n: nat): (ps: seq<Pair>)
    ensures |ps| == n && forall i :: 0 <= i < n ==> ps[i] == Pair(0, 0)
  {
    seq(n, _ => Pair(0, 0))
  }

  lemma {:induction false} PairsOfCopies(n: nat, ds: seq<Doc>)
    ensures PairsOfDocs(Copies(n) + ds) == Repeated(n) + PairsOfDocs(ds)
  {
    if n == 0 {
      assert Copies(0) + ds == ds;
    } else {
      PairsOfCopies(n - 1, ds);
      assert (Copies(n) + ds)[1..] == Copies(n - 1) + ds && (Copies(n) + ds)[0] == Doc(0, [0]);
      assert PairsOfDoc(Doc(0, [0])) == [Pair(0, 0)];
      assert [Pair(0, 0)] + Repeated(n - 1) == Repeated(n);
      ConcatAssociative([Pair(0, 0)], Repeated(n - 1), PairsOfDocs(ds));
    }
  }

  lemma {:induction false} RepeatedSize(n: nat)
    ensures Size(Repeated(n)) == 4 * n
  {
    if n > 0 {
      RepeatedSize(n - 1);
      assert Repeated(n)[1..] == Repeated(n - 1);
      assert |Show(0)| == 1;
    }
  }

  lemma {:induction false} SortedRepeated(n: nat)
    ensures SortSeq(Repeated(n)) == Repeated(n)
  {
    SortSeqSorts(Repeated(n));
    SortedIsUnique(SortSeq(Repeated(n)), Repeated(n));
  }

  lemma {:induction false} DrainRepeated(n: nat)
    ensures Drain([Lane(Pair(0, 0), Repeated(n))]) == Repeated(n + 1)
  {
    var h := [Lane(Pair(0, 0), Repeated(n))];
    assert h[1..] == [];
    if n == 0 {
      assert Pop(h) == [];
    } else {
      DrainRepeated(n - 1);
      assert Repeated(n)[1..] == Repeated(n - 1);
      assert Pop(h) == [Lane(Pair(0, 0), Repeated(n - 1))];
    }
    assert [Pair(0, 0)] + Repeated(n) == Repeated(n + 1);
  }

  lemma {:induction false} OneLane(runs: seq<seq<Pair>>, a: seq<Pair>, b: seq<Pair>, tail: seq<Pair>)
    requires runs == [a, b] && a != [] && b != [] && a[0] == b[0] && tail == a[1..]
    ensures InitHeap(runs) == [Lane(a[0], tail)]
  {
    InitHeapNext(runs, 0);
    InitHeapNext(runs, 1);
    assert runs[..0] == [] && runs[..2] == runs;
    assert Push([], a) == [Lane(a[0], tail)];
    assert Push([Lane(a[0], tail)], b) == [Lane(a[0], tail)];
  }

  lemma {:induction false} TwoRuns(rest: seq<Pair>)
    requires 0 < |rest| <= 12
    ensures Runs(Repeated(12) + rest, 12) == [Repeated(12), SortSeq(rest)]
  {
    SortedRepeated(12);
    RunsStep(Repeated(12), rest, 12);
    RunsStep(rest, [], 12);
    assert rest + [] == rest;
  }

  lemma {:induction false} SecondRunIsBlocked(rest: seq<Pair>)
    requires 0 < |rest| <= 12 && SortSeq(rest)[0] == Pair(0, 0)
    ensures InitHeap(Runs(Repeated(12) + rest, 12)) == [Lane(Pair(0, 0), Repeated(11))]
  {
    TwoRuns(rest);
    assert Repeated(12)[1..] == Repeated(11);
    OneLane(Runs(Repeated(12) + rest, 12), Repeated(12), SortSeq(rest), Repeated(11));
  }

  lemma {:induction false} MergeLoses(rest: seq<Pair>)
    requires 0 < |rest| <= 12 && SortSeq(rest)[0] == Pair(0, 0)
    ensures Merged(Repeated(12) + rest, 12) == Repeated(12)
  {
    SecondRunIsBlocked(rest);
    DrainRepeated(11);
  }

  /** A second run that starts with the same pair as the first is lost as a whole. */
  lemma {:induction false} SecondRunIsLost(rest: seq<Pair>)
    requires 0 < |rest| <= 12 && SortSeq(rest)[0] == Pair(0, 0) && MaxPairsAre12(Repeated(12) + rest)
    ensures SortedPairs(Repeated(12) + rest) == Repeated(12)
  {
    MergeLoses(rest);
  }

  predicate MaxPairsAre12(ps: seq<Pair>) {
    FS.MaxPairs(Size(ps)) == 12
  }

  lemma {:induction false} FilePairs(rest: seq<Doc>)
    requires CountsFit(rest)
    ensures PairsOf(EncodeDocs(Copies(13) + rest)) == Repeated(12) + ([Pair(0, 0)] + PairsOfDocs(rest))
  {
    PairsOfEncodedDocs(Copies(13) + rest);
    PairsOfCopies(13, rest);
    assert Repeated(13) + PairsOfDocs(rest) == Repeated(12) + ([Pair(0, 0)] + PairsOfDocs(rest));
  }

  /** A file with thirteen copies of a document: one pair is lost, for it is in two runs. */
  lemma {:induction false} DuplicateAcrossRunsIsLost()
    ensures PairsOf(EncodeDocs(Copies(13))) == Repeated(13)
    ensures SortedPairs(PairsOf(EncodeDocs(Copies(13)))) == Repeated(12)
  {
    var rest := [Pair(0, 0)];
    assert Copies(13) + [] == Copies(13) && rest + PairsOfDocs([]) == rest;
    FilePairs([]);
    assert Repeated(12) + rest == Repeated(13);
    RepeatedSize(13);
    assert rest[1..] == [];
    SecondRunIsLost(rest);
  }

  lemma {:induction false} OneDocument(d: Doc, p: Pair)
    requires d.words == [p.word] && d.id == p.doc
    ensures PairsOf(EncodeDocs([d])) == [p]
  {
    PairsOfEncodedDocs([d]);
    assert PairsOfDoc(d) == [p] && [d][1..] == [] && [p] + PairsOfDocs([]) == [p];
  }

  lemma {:induction false} OneRun(p: Pair, m: nat)
    requires m > 0
    ensures Runs([p], m) == [[p]] && InitHeap([[p]]) == [Lane(p, [])]
  {
    assert [p][1..] == [] && SortSeq([p]) == [p];
    assert [[p]][..0] == [] && [p] + [] == [p];
    RunsStep([p], [], m);
  }

  /** A file whose one word is 2^64 - 1: nothing is sorted at all, and the index lists whatever the document variable
      holds. */
  lemma {:induction false} MarkerEndsTheSort(junk: u64)
    ensures var data := EncodeDocs([Doc(0, [U64_MAX])]);
            && PairsOf(data) == [Pair(U64_MAX, 0)] && SortedPairs(PairsOf(data)) == []
            && ProgramTable(data, junk) == [Entry(U64_MAX, [junk])]
  {
    OneDocument(Doc(0, [U64_MAX]), Pair(U64_MAX, 0));
    OneRun(Pair(U64_MAX, 0), FS.MaxPairs(Size([Pair(U64_MAX, 0)])));
    OneWordCut(U64_MAX, 0, junk);
  }

  lemma {:induction false} OneWordCut(w: u64, d: u64, junk: u64)
    ensures CutTable(Ascending(WordsOf([Pair(w, d)])), [Pair(w, d)], [], 0, junk) == [Entry(w, [junk])]
  {
    var ps := [Pair(w, d)];
    assert WordsOf(ps) == {w} && {w} - {w} == {};
    assert Ascending({w}) == [w] + Ascending({}) == [w];
    assert DocsOf(ps, w) == [d] + DocsOf([], w) == [d];
    assert DocsRead([], 0, 1, junk) == [junk] + DocsRead([], 1, 0, junk) == [junk];
    assert [w][1..] == [];
    assert CutTable([w], ps, [], 0, junk) == [Entry(w, [junk])] + CutTable([], ps, [], 1, junk);
  }

  predicate AllZero(ds: seq<u64>) {
    forall j :: 0 <= j < |ds| ==> ds[j] == 0
  }

  lemma {:induction false} ZerosRead(qs: seq<Pair>, k: nat, n: nat, junk: u64)
    requires qs != [] && forall j :: 0 <= j < |qs| ==> qs[j].doc == 0
    ensures AllZero(DocsRead(qs, k, n, junk))
    decreases n
  {
    if n > 0 {
      ZerosRead(qs, k + 1, n - 1, junk);
    }
  }

  lemma {:induction false} OnlyZeros(ks: seq<u64>, ps: seq<Pair>, qs: seq<Pair>, k: nat, junk: u64, i: nat)
    requires qs != [] && (forall j :: 0 <= j < |qs| ==> qs[j].doc == 0) && i < |ks|
    ensures AllZero(CutTable(ks, ps, qs, k, junk)[i].docs)
    decreases i
  {
    if i > 0 {
      OnlyZeros(ks[1..], ps, qs, k + |DocsOf(ps, ks[0])|, junk, i - 1);
    } else {
      ZerosRead(qs, k, |DocsOf(ps, ks[0])|, junk);
    }
  }

  /** A loss that reaches the index: behind the lost pair, document 7 with word 1 is lost too. The checker lists that
      document under word 1, the program document 0. */
  lemma {:induction false} LossReachesTheIndex(junk: u64)
    ensures var data := EncodeDocs(Copies(13) + [Doc(7, [1])]);
            && ReverseIndexBytes(data, junk) != C.CheckerBytes(data)
            && exists i :: 0 <= i < |ProgramTable(data, junk)| == |InputTable(PairsOf(data))|
                           && ProgramTable(data, junk)[i] == Entry(1, [0])
                           && InputTable(PairsOf(data))[i] == Entry(1, [7])
  {
    var late, rest := Doc(7, [1]), [Pair(0, 0), Pair(1, 7)];
    assert PairsOfDoc(late) == [Pair(1, 7)] && [late][1..] == [];
    assert [Pair(0, 0)] + PairsOfDocs([late]) == rest;
    FilePairs([late]);
    var ps := Repeated(12) + rest;
    LateSort(rest);
    LateDocs(rest);
    var i := ZeroUnderOne(ps, Repeated(12), junk);
    assert InputTable(ps)[i] != CutTable(Ascending(WordsOf(ps)), ps, Repeated(12), 0, junk)[i];
    DifferentTables(EncodeDocs(Copies(13) + [late]), junk);
  }

  /** A stream of zeros gives word 1 a zero where its one document is 7. */
  lemma {:induction false} ZeroUnderOne(ps: seq<Pair>, qs: seq<Pair>, junk: u64) returns (i: nat)
    requires qs != [] && (forall j :: 0 <= j < |qs| ==> qs[j].doc == 0) && DocsOf(ps, 1) == [7]
    ensures i < |InputTable(ps)| && InputTable(ps)[i] == Entry(1, [7])
    ensures CutTable(Ascending(WordsOf(ps)), ps, qs, 0, junk)[i] == Entry(1, [0])
  {
    var ks := Ascending(WordsOf(ps));
    WordsHaveDocs(ps, 1);
    assert 1 in ks;
    i :| 0 <= i < |ks| && ks[i] == 1;
    CutRow(ks, ps, qs, 0, junk, i);
    OnlyZeros(ks, ps, qs, 0, junk, i);
    assert CutTable(ks, ps, qs, 0, junk)[i].docs == [0];
  }

  lemma {:induction false} DifferentTables(data: seq<byte>, junk: u64)
    requires ProgramTable(data, junk) != InputTable(PairsOf(data))
    ensures ReverseIndexBytes(data, junk) != C.CheckerBytes(data)
  {
    if ReverseIndexBytes(data, junk) == C.CheckerBytes(data) {
      CutShape(PairsOf(data), SortedPairs(PairsOf(data)), junk);
      IndexInjective(ProgramTable(data, junk), InputTable(PairsOf(data)));
    }
  }

  lemma {:induction false} LateSort(rest: seq<Pair>)
    requires rest == [Pair(0, 0), Pair(1, 7)]
    ensures SortedPairs(Repeated(12) + rest) == Repeated(12)
  {
    RepeatedSize(12);
    SizeAppend(Repeated(12), rest);
    assert rest[1..] == [Pair(1, 7)] && rest[1..][1..] == [];
    assert |Show(0)| == |Show(1)| == |Show(7)| == 1;
    assert Size(rest) == 8;
    assert SortSeq([Pair(1, 7)]) == [Pair(1, 7)];
    SecondRunIsLost(rest);
  }

  lemma {:induction false} LateDocs(rest: seq<Pair>)
    requires rest == [Pair(0, 0), Pair(1, 7)]
    ensures DocsOf(Repeated(12) + rest, 1) == [7]
  {
    DocsOfAppend(Repeated(12), rest, 1);
    NoDocs(Repeated(12), 1);
    assert rest[1..] == [Pair(1, 7)] && rest[1..][1..] == [];
    assert DocsOf(rest[1..], 1) == [7] + [];
  }

  /** Two documents with a common word and decreasing ids: the program sorts them, the checker does not. */
  lemma {:induction false} DecreasingIdsDiffer(a: u64, b: u64, w: u64, junk: u64)
    requires b < a && w < U64_MAX
    ensures var data := EncodeDocs([Doc(a, [w]), Doc(b, [w])]);
            ReverseIndexBytes(data, junk) != C.CheckerBytes(data)
  {
    var ds := [Doc(a, [w]), Doc(b, [w])];
    var ps := [Pair(w, a), Pair(w, b)];
    assert ds[1..] == [ds[1]] && PairsOfDoc(ds[0]) == [ps[0]] && PairsOfDoc(ds[1]) == [ps[1]];
    assert PairsOfDocs(ds[1..]) == PairsOfDoc(ds[1]) + [] == [ps[1]];
    assert PairsOfDocs(ds) == [ps[0]] + [ps[1]] == ps;
    PairsOfEncodedDocs(ds);
    assert ps[1..] == [ps[1]] && DocsOf(ps[1..], w) == [b] + [] == [b];
    assert DocsOf(ps, w) == [a] + [b] == [a, b];
    assert ps[0] in ps;
    assert !Nondecreasing([a, b]) by { assert [a, b][0] > [a, b][1]; }
    SameBytes(EncodeDocs(ds), junk);
  }
}
