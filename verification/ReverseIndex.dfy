/** The reverse index program: read, sort externally, write header and posting lists. */
module ReverseIndex {
  import opened Sequences
  import opened Decimal
  import opened Bytes
  import opened DocStream
  import opened PairText
  import opened PairOrder
  import opened RunSpec
  import opened TextStream
  import opened WordIndex
  import opened IndexFormat
  import opened IndexWriter
  import FS = FileSorter
  import FR = FileReader

  /** The document variable after the read number `k` from the sorted stream, which started as `junk`. */
  function DocAt(qs: seq<Pair>, k: nat, junk: u64): u64 {
    if k < |qs| then qs[k].doc else if qs == [] then junk else qs[|qs| - 1].doc
  }

  /** The documents of `n` reads, from number `k` on. */
  function DocsRead(qs: seq<Pair>, k: nat, n: nat, junk: u64): (ds: seq<u64>)
    ensures |ds| == n
    decreases n
  {
    if n == 0 then [] else [DocAt(qs, k, junk)] + DocsRead(qs, k + 1, n - 1, junk)
  }

  lemma {:induction false} DocsReadIs(qs: seq<Pair>, k: nat, ds: seq<u64>, junk: u64)
    requires forall i :: 0 <= i < |ds| ==> DocAt(qs, k + i, junk) == ds[i]
    ensures DocsRead(qs, k, |ds|, junk) == ds
    decreases |ds|
  {
    if ds != [] {
      forall i | 0 <= i < |ds[1..]| ensures DocAt(qs, k + 1 + i, junk) == ds[1..][i] {
        assert DocAt(qs, k + (1 + i), junk) == ds[1 + i];
      }
      DocsReadIs(qs, k + 1, ds[1..], junk);
    }
  }

  /** Reading goes on where it stopped. */
  lemma {:induction false} ReadOn(qs: seq<Pair>, k: nat, n: nat, m: nat, junk: u64)
    ensures DocsRead(qs, k, n + m, junk) == DocsRead(qs, k, n, junk) + DocsRead(qs, k + n, m, junk)
    decreases n
  {
    if n > 0 {
      ReadOn(qs, k + 1, n - 1, m, junk);
      ConcatAssociative([DocAt(qs, k, junk)], DocsRead(qs, k + 1, n - 1, junk), DocsRead(qs, k + n, m, junk));
    }
  }

  /** The posting lists cut from the sorted stream `qs` by the counts of the words `ks` in `ps`. */
  function CutTable(ks: seq<u64>, ps: seq<Pair>, qs: seq<Pair>, k: nat, junk: u64): (table: seq<Entry>)
    ensures |table| == |ks|
    decreases |ks|
  {
    if ks == [] then []
    else
      var n := |DocsOf(ps, ks[0])|;
      [Entry(ks[0], DocsRead(qs, k, n, junk))] + CutTable(ks[1..], ps, qs, k + n, junk)
  }

  /** Whatever is read, row `i` is the list of word `i` and as long as its count. */
  lemma {:induction false} CutRow(ks: seq<u64>, ps: seq<Pair>, qs: seq<Pair>, k: nat, junk: u64, i: nat)
    requires i < |ks|
    ensures var e := CutTable(ks, ps, qs, k, junk)[i]; e.word == ks[i] && |e.docs| == |DocsOf(ps, ks[i])|
    decreases i
  {
    if i > 0 {
      CutRow(ks[1..], ps, qs, k + |DocsOf(ps, ks[0])|, junk, i - 1);
    }
  }

  /** What the external sort writes for the pairs of an input file. */
  function SortedPairs(ps: seq<Pair>): seq<Pair> {
    Merged(ps, FS.MaxPairs(Size(ps)))
  }

  /** What the program writes for an input file; `junk` is the unset document variable. */
  function ReverseIndexBytes(data: seq<byte>, junk: u64): seq<byte> {
    var ps := PairsOf(data);
    IndexBytes(CutTable(Ascending(WordsOf(ps)), ps, SortedPairs(ps), 0, junk))
  }

  /** The documents of the words `ks`, one word after the other. */
  function AllDocs(ks: seq<u64>, ps: seq<Pair>): seq<u64> {
    if ks == [] then [] else DocsOf(ps, ks[0]) + AllDocs(ks[1..], ps)
  }

  lemma {:induction false} SameParts<T>(a: seq<T>, b: seq<T>, x: seq<T>, y: seq<T>)
    requires |a| == |b|
    ensures a + x == b + y <==> a == b && x == y
  {
    if a + x == b + y {
      assert a == (a + x)[..|a|] && b == (b + y)[..|a|];
      assert x == (a + x)[|a|..] && y == (b + y)[|a|..];
    }
  }

  /** Two tables against two rows of documents, both split after the first word. */
  lemma {:induction false} RowByRow(
    w: u64, a: seq<u64>, b: seq<u64>, x: seq<u64>, y: seq<u64>, s: seq<Entry>, t: seq<Entry>,
    read: seq<u64>, docs: seq<u64>, cut: seq<Entry>, input: seq<Entry>)
    requires |a| == |b| && (s == t <==> x == y)
    requires read == a + x && docs == b + y && cut == [Entry(w, a)] + s && input == [Entry(w, b)] + t
    ensures cut == input <==> read == docs
  {
    SameParts(a, b, x, y);
    SameParts([Entry(w, a)], [Entry(w, b)], s, t);
  }

  lemma {:induction false} ReadWord(ks: seq<u64>, ps: seq<Pair>, qs: seq<Pair>, k: nat, junk: u64)
    requires ks != []
    ensures var n := |DocsOf(ps, ks[0])|;
            DocsRead(qs, k, |AllDocs(ks, ps)|, junk)
            == DocsRead(qs, k, n, junk) + DocsRead(qs, k + n, |AllDocs(ks[1..], ps)|, junk)
  {
    ReadOn(qs, k, |DocsOf(ps, ks[0])|, |AllDocs(ks[1..], ps)|, junk);
  }

  /** The lists cut from any stream are those of the input just when the documents read are, all in a row. */
  lemma {:induction false} CutIsInput(ks: seq<u64>, ps: seq<Pair>, qs: seq<Pair>, k: nat, junk: u64)
    ensures CutTable(ks, ps, qs, k, junk) == TableFor(ks, ps)
       <==> DocsRead(qs, k, |AllDocs(ks, ps)|, junk) == AllDocs(ks, ps)
    decreases |ks|
  {
    if ks != [] {
      var n, rest := |DocsOf(ps, ks[0])|, AllDocs(ks[1..], ps);
      CutIsInput(ks[1..], ps, qs, k + n, junk);
      TableForCons(ks, ps);
      ReadWord(ks, ps, qs, k, junk);
      RowByRow(ks[0], DocsRead(qs, k, n, junk), DocsOf(ps, ks[0]), DocsRead(qs, k + n, |rest|, junk), rest,
               CutTable(ks[1..], ps, qs, k + n, junk), TableFor(ks[1..], ps),
               DocsRead(qs, k, |AllDocs(ks, ps)|, junk), AllDocs(ks, ps),
               CutTable(ks, ps, qs, k, junk), TableFor(ks, ps));
    }
  }

  /** Read number `at` of the stream finds the pair `p`. */
  predicate Finds(qs: seq<Pair>, at: nat, p: Pair) {
    at < |qs| && qs[at] == p
  }

  /** From read `k` on come pairs of word `w` with the documents `ds`. */
  predicate IsGroup(w: u64, ds: seq<u64>, qs: seq<Pair>, k: nat) {
    forall m :: 0 <= m < |ds| ==> Finds(qs, k + m, Pair(w, ds[m]))
  }

  /** The pairs of the least word are the next ones, and behind them are the pairs of the other words. */
  lemma {:induction false} CutOne(w: u64, qs: seq<Pair>, k: nat)
    requires k <= |qs| && Sorted(qs)
    requires forall i :: k <= i < |qs| ==> w <= qs[i].word
    ensures var ds := DocsOf(qs[k..], w);
            && k + |ds| <= |qs| && IsGroup(w, ds, qs, k)
            && (forall i :: k + |ds| <= i < |qs| ==> w < qs[i].word)
            && (forall v :: v != w ==> DocsOf(qs[k + |ds|..], v) == DocsOf(qs[k..], v))
  {
    var rest := qs[k..];
    assert forall i :: 0 <= i < |rest| ==> rest[i] == qs[k + i];
    GroupFirst(rest, w);
    var n := |DocsOf(rest, w)|;
    assert qs[k + n..] == rest[n..];
    forall m | 0 <= m < n ensures Finds(qs, k + m, Pair(w, DocsOf(rest, w)[m])) {
      assert rest[m] == qs[k + m];
    }
    forall i | k + n <= i < |qs| ensures w < qs[i].word {
      assert rest[i - k] == qs[i];
    }
    forall v | v != w ensures DocsOf(qs[k + n..], v) == DocsOf(rest, v) {
      OthersKept(rest, n, v);
    }
  }

  /** What is left of the stream `qs` at `k` are the pairs of the words `ks`. */
  ghost predicate LeftFor(ks: seq<u64>, qs: seq<Pair>, k: nat) {
    && k <= |qs|
    && (forall i :: k <= i < |qs| ==> qs[i].word in ks)
    && (forall w :: w in ks ==> DocsOf(qs[k..], w) == DocsOf(qs, w))
  }

  lemma {:induction false} LeftForNext(ks: seq<u64>, qs: seq<Pair>, k: nat, k': nat)
    requires ks != [] && Increasing(ks) && LeftFor(ks, qs, k) && k <= k' <= |qs|
    requires forall i :: k' <= i < |qs| ==> ks[0] < qs[i].word
    requires forall v :: v != ks[0] ==> DocsOf(qs[k'..], v) == DocsOf(qs[k..], v)
    ensures LeftFor(ks[1..], qs, k')
  {
    assert forall w :: w in ks ==> w == ks[0] || w in ks[1..];
    forall w | w in ks[1..] ensures DocsOf(qs[k'..], w) == DocsOf(qs, w) {
      assert w in ks && w != ks[0];
    }
  }

  lemma {:induction false} LeastLeft(ks: seq<u64>, qs: seq<Pair>, k: nat)
    requires ks != [] && Increasing(ks) && LeftFor(ks, qs, k)
    ensures DocsOf(qs[k..], ks[0]) == DocsOf(qs, ks[0])
    ensures forall i :: k <= i < |qs| ==> ks[0] <= qs[i].word
  {
    assert ks[0] in ks;
    assert forall w :: w in ks ==> w == ks[0] || w in ks[1..];
  }

  /** From read `k` on, the stream is made of the groups of the words `ks`, and nothing comes behind them. */
  predicate Grouped(ks: seq<u64>, qs: seq<Pair>, k: nat)
    decreases |ks|
  {
    if ks == [] then k == |qs|
    else
      var ds := DocsOf(qs, ks[0]);
      IsGroup(ks[0], ds, qs, k) && Grouped(ks[1..], qs, k + |ds|)
  }

  /** The first word finds its own pairs next, and what is behind them is left for the other words. */
  lemma {:induction false} FirstGroup(ks: seq<u64>, qs: seq<Pair>, k: nat, ds: seq<u64>)
    requires ks != [] && Sorted(qs) && Increasing(ks) && LeftFor(ks, qs, k) && ds == DocsOf(qs, ks[0])
    ensures IsGroup(ks[0], ds, qs, k) && LeftFor(ks[1..], qs, k + |ds|)
  {
    LeastLeft(ks, qs, k);
    CutOne(ks[0], qs, k);
    LeftForNext(ks, qs, k, k + |ds|);
  }

  lemma {:induction false} NothingLeft(ks: seq<u64>, qs: seq<Pair>, k: nat)
    requires LeftFor(ks, qs, k)
    ensures k < |qs| ==> ks != []
  {
    assert k < |qs| ==> qs[k].word in ks;
  }

  lemma {:induction false} GroupedCons(ks: seq<u64>, qs: seq<Pair>, k: nat, ds: seq<u64>)
    requires ks != [] && ds == DocsOf(qs, ks[0]) && IsGroup(ks[0], ds, qs, k) && Grouped(ks[1..], qs, k + |ds|)
    ensures Grouped(ks, qs, k)
  {
  }

  /** One word after the other finds its own pairs next, and the last one uses the stream up. */
  lemma {:induction false} SortedIsGrouped(ks: seq<u64>, qs: seq<Pair>, k: nat)
    requires Sorted(qs) && Increasing(ks) && LeftFor(ks, qs, k)
    ensures Grouped(ks, qs, k)
    decreases |ks|
  {
    NothingLeft(ks, qs, k);
    if ks != [] {
      var ds := DocsOf(qs, ks[0]);
      FirstGroup(ks, qs, k, ds);
      SortedIsGrouped(ks[1..], qs, k + |ds|);
      GroupedCons(ks, qs, k, ds);
    }
  }

  /** Reading all groups uses the stream up: no pair is left and none is missing. */
  lemma {:induction false} GroupsFillTheStream(ks: seq<u64>, qs: seq<Pair>, k: nat)
    requires Grouped(ks, qs, k)
    ensures k + |AllDocs(ks, qs)| == |qs|
    decreases |ks|
  {
    if ks != [] {
      GroupsFillTheStream(ks[1..], qs, k + |DocsOf(qs, ks[0])|);
    }
  }

  /** Every pair read for a word carries that word: read number `m` of word `i` is its `m`-th pair. */
  lemma {:induction false} GroupIsOwn(ks: seq<u64>, qs: seq<Pair>, k: nat, i: nat, m: nat)
    requires Grouped(ks, qs, k) && i < |ks| && m < |DocsOf(qs, ks[i])|
    ensures Finds(qs, k + |AllDocs(ks[..i], qs)| + m, Pair(ks[i], DocsOf(qs, ks[i])[m]))
    decreases i
  {
    if i > 0 {
      GroupIsOwn(ks[1..], qs, k + |DocsOf(qs, ks[0])|, i - 1, m);
      assert ks[..i][1..] == ks[1..][..i - 1];
    } else {
      assert ks[..0] == [];
    }
  }

  /** From read `k` on, the stream delivers the documents of one word of `ks` after the other. */
  ghost predicate Delivers(ks: seq<u64>, qs: seq<Pair>, k: nat, junk: u64)
    decreases |ks|
  {
    ks != [] ==>
      var ds := DocsOf(qs, ks[0]);
      DocsRead(qs, k, |ds|, junk) == ds && Delivers(ks[1..], qs, k + |ds|, junk)
  }

  lemma {:induction false} GroupIsRead(w: u64, ds: seq<u64>, qs: seq<Pair>, k: nat, junk: u64)
    requires IsGroup(w, ds, qs, k)
    ensures DocsRead(qs, k, |ds|, junk) == ds
  {
    forall m | 0 <= m < |ds| ensures DocAt(qs, k + m, junk) == ds[m] {
      assert Finds(qs, k + m, Pair(w, ds[m]));
    }
    DocsReadIs(qs, k, ds, junk);
  }

  lemma {:induction false} GroupedDelivers(ks: seq<u64>, qs: seq<Pair>, k: nat, junk: u64)
    requires Grouped(ks, qs, k)
    ensures Delivers(ks, qs, k, junk)
    decreases |ks|
  {
    if ks != [] {
      GroupIsRead(ks[0], DocsOf(qs, ks[0]), qs, k, junk);
      GroupedDelivers(ks[1..], qs, k + |DocsOf(qs, ks[0])|, junk);
    }
  }

  /** The sorted pairs of an input, read for its words in order. */
  lemma {:induction false} InputIsGrouped(ps: seq<Pair>)
    ensures Grouped(Ascending(WordsOf(ps)), SortSeq(ps), 0)
  {
    AscendingIncreases(WordsOf(ps));
    AllWordsLeft(ps);
    SortSeqAscends(ps);
    SortedIsGrouped(Ascending(WordsOf(ps)), SortSeq(ps), 0);
  }

  /** Sorting does not change how many documents the words have. */
  lemma {:induction false} SameCounts(ks: seq<u64>, ps: seq<Pair>)
    ensures |AllDocs(ks, SortSeq(ps))| == |AllDocs(ks, ps)|
    decreases |ks|
  {
    if ks != [] {
      SortedDocs(ps, ks[0]);
      SameCounts(ks[1..], ps);
    }
  }

  /** The counts gathered while reading add up to the length of the sorted stream. */
  lemma {:induction false} CountsFillTheStream(ps: seq<Pair>)
    ensures |AllDocs(Ascending(WordsOf(ps)), ps)| == |SortSeq(ps)| == |ps|
  {
    InputIsGrouped(ps);
    GroupsFillTheStream(Ascending(WordsOf(ps)), SortSeq(ps), 0);
    SameCounts(Ascending(WordsOf(ps)), ps);
  }

  lemma {:induction false} RowIsOwn(ks: seq<u64>, qs: seq<Pair>, table: seq<Entry>, i: nat, m: nat, before: nat)
    requires Grouped(ks, qs, 0) && table == TableFor(ks, qs) && i < |table| && m < |table[i].docs|
    requires before == |AllDocs(ks[..i], qs)|
    ensures Finds(qs, before + m, Pair(table[i].word, table[i].docs[m]))
  {
    GroupIsOwn(ks, qs, 0, i, m);
  }

  /** As counted from the input, read number `m` for row `i` finds the row's word with its `m`-th document. */
  lemma {:induction false} CountedRowIsOwn(
    ks: seq<u64>, ps: seq<Pair>, qs: seq<Pair>, table: seq<Entry>, i: nat, m: nat)
    requires qs == SortSeq(ps) && Grouped(ks, qs, 0) && table == TableFor(ks, qs)
    requires i < |table| && m < |table[i].docs|
    ensures Finds(qs, |AllDocs(ks[..i], ps)| + m, Pair(table[i].word, table[i].docs[m]))
  {
    SameCounts(ks[..i], ps);
    RowIsOwn(ks, qs, table, i, m, |AllDocs(ks[..i], ps)|);
  }

  /**
   Cutting the sorted stream by the counts gathered while reading stays aligned: the list of every
   word holds precisely the documents of that word, although the words in the stream are ignored.
   */
  lemma {:induction false} CutIsAligned(ks: seq<u64>, ps: seq<Pair>, qs: seq<Pair>, k: nat, junk: u64)
    requires Delivers(ks, qs, k, junk)
    requires forall w :: w in ks ==> |DocsOf(qs, w)| == |DocsOf(ps, w)|
    ensures CutTable(ks, ps, qs, k, junk) == TableFor(ks, qs)
    decreases |ks|
  {
    if ks != [] {
      assert ks[0] in ks;
      CutIsAligned(ks[1..], ps, qs, k + |DocsOf(qs, ks[0])|, junk);
      TableForCons(ks, qs);
    }
  }

  lemma {:induction false} TableForCons(ks: seq<u64>, qs: seq<Pair>)
    requires ks != []
    ensures TableFor(ks, qs) == [Entry(ks[0], DocsOf(qs, ks[0]))] + TableFor(ks[1..], qs)
  {
  }

  lemma {:induction false} AllWordsLeft(ps: seq<Pair>)
    ensures LeftFor(Ascending(WordsOf(ps)), SortSeq(ps), 0)
  {
    var qs, ks := SortSeq(ps), Ascending(WordsOf(ps));
    assert qs[0..] == qs;
    forall i | 0 <= i < |qs| ensures qs[i].word in ks {
      SortSeqSorts(ps);
      assert qs[i] in multiset(qs);
      assert qs[i] in ps;
      assert qs[i].word in WordsOf(ps);
    }
  }

  /** When the sort is exact, the index lists for every word its documents in ascending order. */
  lemma {:induction false} IndexOfSorted(ps: seq<Pair>, junk: u64)
    ensures CutTable(Ascending(WordsOf(ps)), ps, SortSeq(ps), 0, junk) == SortedTable(ps)
  {
    var qs, ks := SortSeq(ps), Ascending(WordsOf(ps));
    InputIsGrouped(ps);
    GroupedDelivers(ks, qs, 0, junk);
    forall w | w in ks ensures |DocsOf(qs, w)| == |DocsOf(ps, w)| {
      SortedDocs(ps, w);
    }
    CutIsAligned(ks, ps, qs, 0, junk);
  }

  /** The stream over the rendered pairs `qs`, before read number `k`. */
  ghost predicate Positioned(sorted: InStream, qs: seq<Pair>, k: nat)
    reads sorted
  {
    var rest := Remaining(qs, k);
    && sorted.Valid() && (sorted.fail ==> rest == [])
    && (!sorted.fail ==>
          && sorted.Good() && Ahead(sorted.data, sorted.pos, k > 0, rest)
          && sorted.pos + (if k > 0 then 1 else 0) + Size(rest) == |sorted.data|)
  }

  function Remaining(qs: seq<Pair>, k: nat): seq<Pair> {
    if k <= |qs| then qs[k..] else []
  }

  /** The value of the document variable before read number `k`. */
  function DocBefore(qs: seq<Pair>, k: nat, junk: u64): u64 {
    if k == 0 then junk else DocAt(qs, k - 1, junk)
  }

  lemma {:induction false} EncodeOneMore(qs: seq<Pair>, k: nat, j: nat, junk: u64)
    ensures EncodeWords(DocsRead(qs, k, j + 1, junk))
         == EncodeWords(DocsRead(qs, k, j, junk)) + Encode(DocAt(qs, k + j, junk), 8)
  {
    var ds, d := DocsRead(qs, k, j, junk), DocAt(qs, k + j, junk);
    ReadOn(qs, k, j, 1, junk);
    assert DocsRead(qs, k + j, 1, junk) == [d] + [] == [d];
    EncodeWordsSnoc(ds, d);
  }

  lemma {:induction false} RemainingNext(qs: seq<Pair>, k: nat)
    ensures Remaining(qs, k) == [] <==> |qs| <= k
    ensures k < |qs| ==> Remaining(qs, k)[0] == qs[k] && Remaining(qs, k)[1..] == Remaining(qs, k + 1)
  {
  }

  /** `sorted >> cur_w >> cur_d`, whose success nobody checks: read number `k`. */
  method ReadNext(sorted: InStream, cur_w: u64, cur_d: u64, ghost qs: seq<Pair>, ghost k: nat, ghost junk: u64)
    returns (w: u64, d: u64)
    requires Positioned(sorted, qs, k) && cur_d == DocBefore(qs, k, junk)
    modifies sorted
    ensures Positioned(sorted, qs, k + 1) && d == DocAt(qs, k, junk)
  {
    RemainingNext(qs, k);
    var _, w', d' := sorted.ReadPair(cur_w, cur_d, k > 0, Remaining(qs, k));
    w, d := w', d';
  }

  /** Reads a document and writes it. */
  method CopyDoc(
    sorted: InStream, cur_w: u64, cur_d: u64, docs: seq<byte>,
    ghost qs: seq<Pair>, ghost k: nat, ghost j: nat, ghost at: nat, ghost junk: u64)
    returns (w: u64, d: u64, docs': seq<byte>)
    requires at == k + j && Positioned(sorted, qs, at) && cur_d == DocBefore(qs, at, junk)
    requires docs == EncodeWords(DocsRead(qs, k, j, junk))
    modifies sorted
    ensures Positioned(sorted, qs, at + 1) && d == DocBefore(qs, at + 1, junk)
    ensures docs' == EncodeWords(DocsRead(qs, k, j + 1, junk))
  {
    EncodeOneMore(qs, k, j, junk);
    w, d := ReadNext(sorted, cur_w, cur_d, qs, at, junk);
    docs' := docs + Encode(d, 8);
  }

  /** The lists of the words `ks[i..]`, cut from read `k` on, are the last lists of `table`. */
  ghost predicate CutFrom(
    ks: seq<u64>, ps: seq<Pair>, qs: seq<Pair>, i: nat, k: nat, junk: u64, table: seq<Entry>)
  {
    i <= |ks| == |table| && CutTable(ks[i..], ps, qs, k, junk) == table[i..]
  }

  lemma {:induction false} CutNext(ks: seq<u64>, ps: seq<Pair>, qs: seq<Pair>, i: nat, k: nat, n: nat, junk: u64,
                                   table: seq<Entry>)
    requires i < |ks| && CutFrom(ks, ps, qs, i, k, junk, table) && n == |DocsOf(ps, ks[i])|
    ensures EntryBytes(table[i]) == Encode(n % 0x1_0000_0000, 4) + EncodeWords(DocsRead(qs, k, n, junk))
    ensures CutFrom(ks, ps, qs, i + 1, k + n, junk, table)
  {
    assert ks[i..][1..] == ks[i + 1..] && ks[i..][0] == ks[i];
    assert table[i..][1..] == table[i + 1..] && table[i..][0] == table[i];
  }

  /** The inner loop: as many documents as counted, whatever the words beside them. */
  method CopyDocs(
    sorted: InStream, cur_w: u64, cur_d: u64, n: nat, ghost qs: seq<Pair>, ghost k: nat, ghost junk: u64)
    returns (docs: seq<byte>, w: u64, d: u64, ghost at: nat)
    requires Positioned(sorted, qs, k) && cur_d == DocBefore(qs, k, junk)
    modifies sorted
    ensures at == k + n && Positioned(sorted, qs, at) && d == DocBefore(qs, at, junk)
    ensures docs == EncodeWords(DocsRead(qs, k, n, junk))
  {
    docs, w, d, at := [], cur_w, cur_d, k;
    for j := 0 to n
      invariant at == k + j && Positioned(sorted, qs, at) && d == DocBefore(qs, at, junk)
      invariant docs == EncodeWords(DocsRead(qs, k, j, junk))
    {
      w, d, docs := CopyDoc(sorted, w, d, docs, qs, k, j, at, junk);
      at := at + 1;
    }
  }

  /** Writes one posting list: a 32-bit count and as many documents. */
  method WriteList(
    sorted: InStream, cur_w: u64, cur_d: u64, n: nat, out: seq<byte>,
    ghost qs: seq<Pair>, ghost k: nat, ghost junk: u64)
    returns (out': seq<byte>, w: u64, d: u64, ghost at: nat)
    requires Positioned(sorted, qs, k) && cur_d == DocBefore(qs, k, junk)
    modifies sorted
    ensures at == k + n && Positioned(sorted, qs, at) && d == DocBefore(qs, at, junk)
    ensures out' == out + (Encode(n % 0x1_0000_0000, 4) + EncodeWords(DocsRead(qs, k, n, junk)))
  {
    var cnt_docs := n % 0x1_0000_0000;
    var docs;
    docs, w, d, at := CopyDocs(sorted, cur_w, cur_d, n, qs, k, junk);
    out' := out + (Encode(cnt_docs, 4) + docs);
  }

  /** Writes the posting lists, trusting the counts to stay aligned with the sorted stream. */
  method WritePostings(
    sorted_file: string, ks: seq<u64>, word_dict: map<u64, nat>, unset_w: u64, unset_d: u64,
    ghost ps: seq<Pair>, ghost qs: seq<Pair>)
    returns (out: seq<byte>)
    requires sorted_file == Render(qs)
    requires forall i :: 0 <= i < |ks| ==> ks[i] in word_dict && word_dict[ks[i]] == |DocsOf(ps, ks[i])|
    ensures out == Postings(CutTable(ks, ps, qs, 0, unset_d))
  {
    var sorted := OpenSorted(sorted_file, qs);
    var cur_w, cur_d := unset_w, unset_d;
    ghost var table := CutTable(ks, ps, qs, 0, unset_d);
    ghost var k: nat := 0;
    out := [];
    assert ks[0..] == ks && table[0..] == table;
    PostingsStart(table);
    for i := 0 to |ks|
      invariant fresh(sorted) && Positioned(sorted, qs, k) && cur_d == DocBefore(qs, k, unset_d)
      invariant CutFrom(ks, ps, qs, i, k, unset_d, table) && PostingsUpTo(out, table, i)
    {
      var n := word_dict[ks[i]];
      CutNext(ks, ps, qs, i, k, n, unset_d, table);
      PostingsStep(out, table, i);
      out, cur_w, cur_d, k := WriteList(sorted, cur_w, cur_d, n, out, qs, k, unset_d);
    }
    PostingsDone(out, table);
  }

  method OpenSorted(sorted_file: string, ghost qs: seq<Pair>) returns (sorted: InStream)
    requires sorted_file == Render(qs)
    ensures fresh(sorted) && Positioned(sorted, qs, 0)
  {
    sorted := new InStream(sorted_file);
    assert qs[0..] == qs;
  }

  /** Builds the reverse index of an input file. */
  method MakeReverseIndex(index: seq<byte>, unset_w: u64, unset_d: u64) returns (reverse_index: seq<byte>)
    ensures reverse_index == ReverseIndexBytes(index, unset_d)
  {
    var fr := new FR.FileReader(index);
    var file_to_sort := fr.Read();
    var word_dict := fr.word_dict_;
    ghost var ps := PairsOf(index);
    var fs := new FS.FileSorter(file_to_sort);
    var sorted_file := fs.Sort(ps);
    KeysAreWords(word_dict, ps);
    var ks := Ascending(word_dict.Keys);
    assert forall i :: 0 <= i < |ks| ==> ks[i] in word_dict.Keys;
    forall i | 0 <= i < |ks|
      ensures var e := CutTable(ks, ps, SortedPairs(ps), 0, unset_d)[i];
              e.word == ks[i] && |e.docs| == word_dict[ks[i]]
    {
      CutRow(ks, ps, SortedPairs(ps), 0, unset_d, i);
    }
    reverse_index := WriteHeader(ks, word_dict, CutTable(ks, ps, SortedPairs(ps), 0, unset_d));
    var lists := WritePostings(sorted_file, ks, word_dict, unset_w, unset_d, ps, SortedPairs(ps));
    reverse_index := reverse_index + lists;
  }
}
