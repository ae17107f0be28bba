/** The text files of "word doc " pairs that the external sort passes around. */
module PairText {
  import opened Sequences
  import opened Decimal

  datatype Pair = Pair(word: u64, doc: u64)

  function PairSize(p: Pair): (n: nat)
    ensures 4 <= n
  {
    |Show(p.word)| + |Show(p.doc)| + 2
  }

  function RenderPair(p: Pair): (s: string)
    ensures |s| == PairSize(p)
  {
    Show(p.word) + " " + Show(p.doc) + " "
  }

  /** The number of bytes `Render` takes. */
  function Size(ps: seq<Pair>): (n: nat)
    ensures 4 * |ps| <= n
  {
    if ps == [] then 0 else PairSize(ps[0]) + Size(ps[1..])
  }

  function Render(ps: seq<Pair>): (s: string)
    ensures |s| == Size(ps)
  {
    if ps == [] then "" else RenderPair(ps[0]) + Render(ps[1..])
  }

  lemma {:induction false} RenderAppend(a: seq<Pair>, b: seq<Pair>)
    ensures Render(a + b) == Render(a) + Render(b)
  {
    if a == [] {
      assert a + b == b;
    } else {
      calc {
        Render(a + b);
        { assert (a + b)[1..] == a[1..] + b && (a + b)[0] == a[0]; }
        RenderPair(a[0]) + Render(a[1..] + b);
        { RenderAppend(a[1..], b); }
        RenderPair(a[0]) + (Render(a[1..]) + Render(b));
        { ConcatAssociative(RenderPair(a[0]), Render(a[1..]), Render(b)); }
        Render(a) + Render(b);
      }
    }
  }

  /** Writing one more pair. */
  lemma {:induction false} RenderSnoc(ps: seq<Pair>, p: Pair)
    ensures Render(ps + [p]) == Render(ps) + RenderPair(p)
  {
    RenderAppend(ps, [p]);
    assert Render([p]) == RenderPair(p) + "" == RenderPair(p);
  }

  /** A pair written piece by piece. */
  lemma {:induction false} WritePair(out: string, p: Pair)
    ensures out + Show(p.word) + " " + Show(p.doc) + " " == out + RenderPair(p)
  {
    ConcatFive(out, Show(p.word), " ", Show(p.doc), " ");
  }

  lemma {:induction false} SizeAppend(a: seq<Pair>, b: seq<Pair>)
    ensures Size(a + b) == Size(a) + Size(b)
  {
    if a == [] {
      assert a + b == b;
    } else {
      SizeAppend(a[1..], b);
      assert (a + b)[1..] == a[1..] + b;
    }
  }

  /** Permuting pairs does not change the length of their rendering. This is why offsets measured in
      the unsorted file can be used to seek in the partly sorted one. */
  lemma {:induction false} SizeOfPermutation(a: seq<Pair>, b: seq<Pair>)
    requires multiset(a) == multiset(b)
    ensures Size(a) == Size(b)
  {
    if a == [] {
      assert |multiset(b)| == |b| == 0;
    } else {
      var b' := Without(b, a[0]);
      WithoutFirst(a);
      SizeOfPermutation(a[1..], b');
    }
  }

  lemma {:induction false} WithoutFirst(a: seq<Pair>)
    requires a != []
    ensures multiset(a[1..]) == multiset(a) - multiset{a[0]}
  {
    assert a == [a[0]] + a[1..];
  }

  /** `b` without one occurrence of `x`. */
  lemma {:induction false} Without(b: seq<Pair>, x: Pair) returns (b': seq<Pair>)
    requires x in multiset(b)
    ensures multiset(b') == multiset(b) - multiset{x}
    ensures Size(b) == PairSize(x) + Size(b')
  {
    var i :| 0 <= i < |b| && b[i] == x;
    b' := b[..i] + b[i + 1..];
    var right := [b[i]] + b[i + 1..];
    assert b == b[..i] + right;
    SizeAppend(b[..i], b[i + 1..]);
    SizeAppend(b[..i], right);
    assert right[1..] == b[i + 1..];
  }
}
