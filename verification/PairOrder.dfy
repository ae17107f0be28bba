/** The order on (word, doc) pairs and `std::sort`, given by what it promises: an ascending permutation. */
module PairOrder {
  import opened PairText

  predicate Less(a: Pair, b: Pair) {
    a.word < b.word || (a.word == b.word && a.doc < b.doc)
  }

  predicate LessEq(a: Pair, b: Pair) {
    a == b || Less(a, b)
  }

  predicate Sorted(s: seq<Pair>) {
    forall i, j :: 0 <= i < j < |s| ==> LessEq(s[i], s[j])
  }

  function Insert(x: Pair, s: seq<Pair>): (r: seq<Pair>)
    ensures |r| == |s| + 1
  {
    if s == [] || LessEq(x, s[0]) then [x] + s else [s[0]] + Insert(x, s[1..])
  }

  function SortSeq(s: seq<Pair>): (r: seq<Pair>)
    ensures |r| == |s|
  {
    if s == [] then [] else Insert(s[0], SortSeq(s[1..]))
  }

  lemma {:induction false} InsertAdds(x: Pair, s: seq<Pair>)
    ensures multiset(Insert(x, s)) == multiset{x} + multiset(s)
  {
    if s == [] || LessEq(x, s[0]) {
    } else {
      InsertAdds(x, s[1..]);
      assert s == [s[0]] + s[1..];
    }
  }

  lemma {:induction false} InsertSorts(x: Pair, s: seq<Pair>)
    requires Sorted(s)
    ensures Sorted(Insert(x, s))
  {
    if s == [] || LessEq(x, s[0]) {
    } else {
      InsertSorts(x, s[1..]);
      InsertAdds(x, s[1..]);
      var r := Insert(x, s[1..]);
      forall i | 0 <= i < |r| ensures LessEq(s[0], r[i]) {
        assert r[i] in multiset(r);
        assert r[i] == x || r[i] in s[1..];
      }
    }
  }

  /** `SortSeq` is an ascending permutation of its argument. */
  lemma {:induction false} SortSeqSorts(s: seq<Pair>)
    ensures Sorted(SortSeq(s))
    ensures multiset(SortSeq(s)) == multiset(s)
  {
    if s != [] {
      SortSeqSorts(s[1..]);
      InsertSorts(s[0], SortSeq(s[1..]));
      InsertAdds(s[0], SortSeq(s[1..]));
      assert s == [s[0]] + s[1..];
    }
  }

  lemma {:induction false} SortSeqAscends(s: seq<Pair>)
    ensures Sorted(SortSeq(s))
  {
    SortSeqSorts(s);
  }

  /** How often `x` occurs in `s`. */
  function Times(s: seq<Pair>, x: Pair): nat {
    if s == [] then 0 else (if s[0] == x then 1 else 0) + Times(s[1..], x)
  }

  lemma {:induction false} TimesIsMultiplicity(s: seq<Pair>, x: Pair)
    ensures Times(s, x) == multiset(s)[x]
  {
    if s != [] {
      TimesIsMultiplicity(s[1..], x);
      assert s == [s[0]] + s[1..];
    }
  }

  /** There is only one ascending permutation. */
  lemma {:induction false} SortedIsUnique(a: seq<Pair>, b: seq<Pair>)
    requires Sorted(a) && Sorted(b) && multiset(a) == multiset(b)
    ensures a == b
  {
    assert |a| == |multiset(a)| == |multiset(b)| == |b|;
    if a != [] {
      assert a[0] in multiset(b) && b[0] in multiset(a);
      assert a[0] == b[0];
      assert a == [a[0]] + a[1..] && b == [b[0]] + b[1..];
      assert multiset(a[1..]) == multiset(a) - multiset{a[0]};
      assert multiset(b[1..]) == multiset(b) - multiset{b[0]};
      SortedIsUnique(a[1..], b[1..]);
    }
  }

  /** `std::sort` on the first `n` elements of a vector. */
  method StdSort(a: array<Pair>, n: nat)
    requires n <= a.Length
    modifies a
    ensures a[..n] == SortSeq(old(a[..n]))
    ensures a[n..] == old(a[n..])
  {
    var s := SortSeq(a[..n]);
    for i := 0 to n
      invariant a[..i] == s[..i]
      invariant a[n..] == old(a[n..])
    {
      a[i] := s[i];
    }
  }
}
