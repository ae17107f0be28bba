/** Which documents each word has, and in which order: the content of the index, over values. */
module WordIndex {
  import opened Decimal
  import opened PairText
  import opened PairOrder
  import opened IndexFormat

  function WordsOf(ps: seq<Pair>): set<u64> {
    set p | p in ps :: p.word
  }

  /** The documents of word `w`, in the order of `ps`. */
  function DocsOf(ps: seq<Pair>, w: u64): seq<u64> {
    if ps == [] then []
    else if ps[0].word == w then [ps[0].doc] + DocsOf(ps[1..], w)
    else DocsOf(ps[1..], w)
  }

  lemma {:induction false} DocsOfAppend(a: seq<Pair>, b: seq<Pair>, w: u64)
    ensures DocsOf(a + b, w) == DocsOf(a, w) + DocsOf(b, w)
  {
    if a == [] {
      assert a + b == b;
    } else {
      DocsOfAppend(a[1..], b, w);
      assert (a + b)[1..] == a[1..] + b;
    }
  }

  lemma {:induction false} WordsHaveDocs(ps: seq<Pair>, w: u64)
    ensures w in WordsOf(ps) <==> DocsOf(ps, w) != []
  {
    if ps != [] {
      WordsHaveDocs(ps[1..], w);
      assert WordsOf(ps) == {ps[0].word} + WordsOf(ps[1..]) by {
        assert ps == [ps[0]] + ps[1..];
      }
    }
  }

  /** A dictionary with an entry for every word that has documents. */
  lemma {:induction false} KeysAreWords<T>(dict: map<u64, T>, ps: seq<Pair>)
    requires forall w: u64 :: w in dict <==> DocsOf(ps, w) != []
    ensures dict.Keys == WordsOf(ps)
  {
    forall w: u64 ensures w in dict.Keys <==> w in WordsOf(ps) {
      WordsHaveDocs(ps, w);
    }
  }

  predicate IsLeast(s: set<u64>, x: u64) {
    x in s && forall y :: y in s ==> x <= y
  }

  lemma {:induction false} LeastExists(s: set<u64>) returns (m: u64)
    requires s != {}
    ensures IsLeast(s, m)
  {
    var x :| x in s;
    var rest := s - {x};
    if rest == {} {
      assert s == {x};
      m := x;
    } else {
      var z := LeastExists(rest);
      m := if z < x then z else x;
      forall y | y in s ensures m <= y {
        assert y == x || y in rest;
      }
    }
  }

  lemma {:induction false} HasLeast(s: set<u64>)
    requires s != {}
    ensures exists x :: IsLeast(s, x)
  {
    var m := LeastExists(s);
  }

  function Least(s: set<u64>): (x: u64)
    requires s != {}
    ensures IsLeast(s, x)
  {
    HasLeast(s);
    var x :| IsLeast(s, x);
    x
  }

  /** The keys of a `std::map` in the order its iterators visit them. */
  function Ascending(s: set<u64>): (ks: seq<u64>)
    ensures |ks| == |s|
    ensures forall x :: x in ks <==> x in s
  {
    if s == {} then [] else [Least(s)] + Ascending(s - {Least(s)})
  }

  predicate Increasing(ks: seq<u64>) {
    ks == [] || ((forall v :: v in ks[1..] ==> ks[0] < v) && Increasing(ks[1..]))
  }

  lemma {:induction false} AscendingIncreases(s: set<u64>)
    ensures Increasing(Ascending(s))
  {
    if s != {} {
      var m := Least(s);
      AscendingIncreases(s - {m});
      assert Ascending(s)[1..] == Ascending(s - {m});
    }
  }

  /** The index that lists the documents of every word of `ps` in the order of `qs`. */
  function TableFor(ks: seq<u64>, qs: seq<Pair>): (table: seq<Entry>)
    ensures |table| == |ks|
    ensures forall i :: 0 <= i < |ks| ==> table[i] == Entry(ks[i], DocsOf(qs, ks[i]))
  {
    seq(|ks|, i requires 0 <= i < |ks| => Entry(ks[i], DocsOf(qs, ks[i])))
  }

  /** What the in-memory program indexes: every word's documents in input order. */
  function InputTable(ps: seq<Pair>): seq<Entry> {
    TableFor(Ascending(WordsOf(ps)), ps)
  }

  /** The same words with their documents in sorted order. */
  function SortedTable(ps: seq<Pair>): seq<Entry> {
    TableFor(Ascending(WordsOf(ps)), SortSeq(ps))
  }

  predicate Nondecreasing(ds: seq<u64>) {
    forall i, j :: 0 <= i < j < |ds| ==> ds[i] <= ds[j]
  }

  /** In input order, the documents of every word are nondecreasing. */
  predicate DocsAscend(ps: seq<Pair>) {
    forall w :: w in WordsOf(ps) ==> Nondecreasing(DocsOf(ps, w))
  }

  /** The pairs of one word. */
  function Select(ps: seq<Pair>, w: u64): seq<Pair> {
    if ps == [] then []
    else if ps[0].word == w then [ps[0]] + Select(ps[1..], w)
    else Select(ps[1..], w)
  }

  lemma {:induction false} SelectDocs(ps: seq<Pair>, w: u64)
    ensures |DocsOf(ps, w)| == |Select(ps, w)|
    ensures forall i :: 0 <= i < |Select(ps, w)| ==> Select(ps, w)[i] == Pair(w, DocsOf(ps, w)[i])
  {
    if ps != [] {
      SelectDocs(ps[1..], w);
    }
  }

  lemma {:induction false} SelectTimes(ps: seq<Pair>, w: u64, x: Pair)
    ensures Times(Select(ps, w), x) == if x.word == w then Times(ps, x) else 0
  {
    if ps != [] {
      SelectTimes(ps[1..], w, x);
      var rest := Select(ps[1..], w);
      assert ([ps[0]] + rest)[1..] == rest;
    }
  }

  lemma {:induction false} SelectSorted(ps: seq<Pair>, w: u64)
    requires Sorted(ps)
    ensures Sorted(Select(ps, w))
    ensures forall x :: x in Select(ps, w) ==> x in ps
  {
    if ps != [] {
      SelectSorted(ps[1..], w);
      var rest := Select(ps[1..], w);
      forall i | 0 <= i < |rest| ensures LessEq(ps[0], rest[i]) {
        assert rest[i] in ps[1..];
      }
    }
  }

  lemma {:induction false} NondecreasingIsSorted(ps: seq<Pair>, w: u64)
    ensures Nondecreasing(DocsOf(ps, w)) <==> Sorted(Select(ps, w))
  {
    SelectDocs(ps, w);
    var s, d := Select(ps, w), DocsOf(ps, w);
    assert forall i, j :: 0 <= i < j < |s| ==> (LessEq(s[i], s[j]) <==> d[i] <= d[j]);
    if Sorted(s) {
      forall i, j | 0 <= i < j < |d| ensures d[i] <= d[j] { assert LessEq(s[i], s[j]); }
    }
  }

  /** Sorting the pairs sorts the documents of every word; it changes them unless they ascend already. */
  lemma {:induction false} SortedDocs(ps: seq<Pair>, w: u64)
    ensures Nondecreasing(DocsOf(SortSeq(ps), w))
    ensures |DocsOf(SortSeq(ps), w)| == |DocsOf(ps, w)|
    ensures DocsOf(SortSeq(ps), w) == DocsOf(ps, w) <==> Nondecreasing(DocsOf(ps, w))
  {
    var s := SortSeq(ps);
    SortSeqSorts(ps);
    SelectSorted(s, w);
    NondecreasingIsSorted(s, w);
    NondecreasingIsSorted(ps, w);
    SelectDocs(ps, w);
    SelectDocs(s, w);
    forall x ensures multiset(Select(s, w))[x] == multiset(Select(ps, w))[x] {
      SelectTimes(s, w, x);
      SelectTimes(ps, w, x);
      TimesIsMultiplicity(s, x);
      TimesIsMultiplicity(ps, x);
      TimesIsMultiplicity(Select(s, w), x);
      TimesIsMultiplicity(Select(ps, w), x);
    }
    assert multiset(Select(s, w)) == multiset(Select(ps, w));
    assert |multiset(Select(s, w))| == |Select(s, w)| && |multiset(Select(ps, w))| == |Select(ps, w)|;
    if Nondecreasing(DocsOf(ps, w)) {
      SortedIsUnique(Select(s, w), Select(ps, w));
      assert forall i :: 0 <= i < |DocsOf(s, w)| ==> Select(s, w)[i].doc == Select(ps, w)[i].doc;
    }
  }

  /** The two tables agree exactly when every word's documents come in nondecreasing order. */
  lemma {:induction false} TablesAgree(ps: seq<Pair>)
    ensures SameShape(SortedTable(ps), InputTable(ps))
    ensures SortedTable(ps) == InputTable(ps) <==> DocsAscend(ps)
  {
    var ks := Ascending(WordsOf(ps));
    forall w
      ensures |DocsOf(SortSeq(ps), w)| == |DocsOf(ps, w)|
      ensures DocsOf(SortSeq(ps), w) == DocsOf(ps, w) <==> Nondecreasing(DocsOf(ps, w))
    {
      SortedDocs(ps, w);
    }
    if SortedTable(ps) == InputTable(ps) {
      forall w | w in WordsOf(ps) ensures Nondecreasing(DocsOf(ps, w)) {
        var i :| 0 <= i < |ks| && ks[i] == w;
        assert SortedTable(ps)[i] == InputTable(ps)[i];
      }
    }
    if DocsAscend(ps) {
      forall i | 0 <= i < |ks| ensures SortedTable(ps)[i] == InputTable(ps)[i] {
        assert ks[i] in WordsOf(ps);
      }
      assert SortedTable(ps) == InputTable(ps);
    }
  }

  /** In an ascending sequence whose words are at least `w`, the pairs of `w` come first. */
  lemma {:induction false} GroupFirst(qs: seq<Pair>, w: u64)
    requires Sorted(qs) && forall i :: 0 <= i < |qs| ==> w <= qs[i].word
    ensures var n := |DocsOf(qs, w)|;
            && n <= |qs|
            && (forall i :: 0 <= i < n ==> qs[i] == Pair(w, DocsOf(qs, w)[i]))
            && (forall i :: n <= i < |qs| ==> w < qs[i].word)
  {
    if qs == [] {
    } else if qs[0].word == w {
      GroupFirst(qs[1..], w);
    } else {
      assert forall i :: 0 < i < |qs| ==> LessEq(qs[0], qs[i]);
      NoDocs(qs, w);
    }
  }

  lemma {:induction false} NoDocs(qs: seq<Pair>, w: u64)
    requires forall i :: 0 <= i < |qs| ==> qs[i].word != w
    ensures DocsOf(qs, w) == []
  {
    if qs != [] {
      NoDocs(qs[1..], w);
    }
  }

  /** Dropping pairs of another word keeps the documents of `w`. */
  lemma {:induction false} OthersKept(qs: seq<Pair>, n: nat, w: u64)
    requires n <= |qs| && forall i :: 0 <= i < n ==> qs[i].word != w
    ensures DocsOf(qs[n..], w) == DocsOf(qs, w)
  {
    NoDocs(qs[..n], w);
    DocsOfAppend(qs[..n], qs[n..], w);
    assert qs == qs[..n] + qs[n..];
  }
}
