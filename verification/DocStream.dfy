/** The input format: records of a document id, a word count and that many words. */
module DocStream {
  import opened Sequences
  import opened Decimal
  import opened Bytes
  import opened PairText

  function Read64(data: seq<byte>, p: nat, v: u64): u64
    requires p <= |data|
  {
    Widths();
    ReadValue(data, p, 8, v)
  }

  function Read32(data: seq<byte>, p: nat, v: u32): u32
    requires p <= |data|
  {
    Widths();
    ReadValue(data, p, 4, v)
  }

  /** The pairs of the `left` words that follow at `p`, in a document `doc`. */
  function DocPairs(data: seq<byte>, p: nat, doc: u64, left: nat, word: u64): seq<Pair>
    requires p <= |data|
    decreases left
  {
    if left == 0 then []
    else
      var w := Read64(data, p, word);
      [Pair(w, doc)] + DocPairs(data, ReadEnd(data, p, 8), doc, left - 1, w)
  }

  function DocEnd(data: seq<byte>, p: nat, left: nat): (q: nat)
    requires p <= |data|
    ensures p <= q <= |data|
    decreases left
  {
    if left == 0 then p else DocEnd(data, ReadEnd(data, p, 8), left - 1)
  }

  function LastWord(data: seq<byte>, p: nat, left: nat, word: u64): u64
    requires p <= |data|
    decreases left
  {
    if left == 0 then word else LastWord(data, ReadEnd(data, p, 8), left - 1, Read64(data, p, word))
  }

  /**
   The pairs both programs see from position `p` on, given the values the count and word variables
   hold. It is defined on every byte sequence: after a truncated read both keep what they had.
   */
  function PairsFrom(data: seq<byte>, p: nat, cnt: u32, word: u64): seq<Pair>
    requires p <= |data|
    decreases |data| - p
  {
    if p + 8 > |data| then []
    else
      var doc := Read64(data, p, 0);
      var c := Read32(data, p + 8, cnt);
      var q := ReadEnd(data, p + 8, 4);
      DocPairs(data, q, doc, c, word) + PairsFrom(data, DocEnd(data, q, c), c, LastWord(data, q, c, word))
  }

  function PairsOf(data: seq<byte>): seq<Pair> {
    PairsFrom(data, 0, 0, 0)
  }

  /** In a document, the pairs `done` were read and the rest of `all` is still to come. */
  ghost predicate InDocument(
    data: seq<byte>, p: nat, doc: u64, left: nat, word: u64, done: seq<Pair>, all: seq<Pair>, end: nat, last: u64)
  {
    && p <= |data|
    && done + DocPairs(data, p, doc, left, word) == all
    && DocEnd(data, p, left) == end
    && LastWord(data, p, left, word) == last
  }

  /** Reading one word of a document. */
  lemma {:induction false} DocStep(
    data: seq<byte>, p: nat, doc: u64, left: nat, word: u64, done: seq<Pair>, all: seq<Pair>, end: nat, last: u64)
    requires left > 0 && InDocument(data, p, doc, left, word, done, all, end, last)
    ensures var w := Read64(data, p, word);
            InDocument(data, ReadEnd(data, p, 8), doc, left - 1, w, done + [Pair(w, doc)], all, end, last)
  {
    var w := Read64(data, p, word);
    ConcatAssociative(done, [Pair(w, doc)], DocPairs(data, ReadEnd(data, p, 8), doc, left - 1, w));
  }

  /** In the file, the pairs `done` were read and the rest of the file is still to come. */
  ghost predicate InFile(data: seq<byte>, p: nat, cnt: u32, word: u64, done: seq<Pair>) {
    p <= |data| && done + PairsFrom(data, p, cnt, word) == PairsOf(data)
  }

  lemma {:induction false} FileStart(data: seq<byte>)
    ensures InFile(data, 0, 0, 0, [])
  {
  }

  lemma {:induction false} FileEnd(data: seq<byte>, p: nat, cnt: u32, word: u64, done: seq<Pair>)
    requires InFile(data, p, cnt, word, done) && p + 8 > |data|
    ensures done == PairsOf(data)
  {
  }

  /** Reading one document. */
  lemma {:induction false} FileStep(data: seq<byte>, p: nat, cnt: u32, word: u64, done: seq<Pair>, doc: u64)
    requires InFile(data, p, cnt, word, done) && p + 8 <= |data|
    ensures var d := Read64(data, p, doc);
            var c := Read32(data, p + 8, cnt);
            var q := ReadEnd(data, p + 8, 4);
            InFile(data, DocEnd(data, q, c), c, LastWord(data, q, c, word), done + DocPairs(data, q, d, c, word))
  {
    FullRead(data, p, 8, doc);
    FullRead(data, p, 8, 0);
    var c := Read32(data, p + 8, cnt);
    var q := ReadEnd(data, p + 8, 4);
    ConcatAssociative(done, DocPairs(data, q, Read64(data, p, 0), c, word),
                      PairsFrom(data, DocEnd(data, q, c), c, LastWord(data, q, c, word)));
  }

  /** A document of a well-formed input file. */
  datatype Doc = Doc(id: u64, words: seq<u64>)

  function EncodeWords(ws: seq<u64>): seq<byte> {
    if ws == [] then [] else Encode(ws[0], 8) + EncodeWords(ws[1..])
  }

  function EncodeDoc(d: Doc): seq<byte> {
    Encode(d.id, 8) + Encode(|d.words|, 4) + EncodeWords(d.words)
  }

  function EncodeDocs(ds: seq<Doc>): seq<byte> {
    if ds == [] then [] else EncodeDoc(ds[0]) + EncodeDocs(ds[1..])
  }

  function PairsOfDoc(d: Doc): (ps: seq<Pair>)
    ensures |ps| == |d.words| && forall i :: 0 <= i < |ps| ==> ps[i] == Pair(d.words[i], d.id)
  {
    seq(|d.words|, i requires 0 <= i < |d.words| => Pair(d.words[i], d.id))
  }

  function PairsOfDocs(ds: seq<Doc>): seq<Pair> {
    if ds == [] then [] else PairsOfDoc(ds[0]) + PairsOfDocs(ds[1..])
  }

  predicate CountsFit(ds: seq<Doc>) {
    forall i :: 0 <= i < |ds| ==> |ds[i].words| < 0x1_0000_0000
  }

  /** `bs` stands at position `p` of `data`. */
  predicate BytesAt(data: seq<byte>, p: nat, bs: seq<byte>) {
    p + |bs| <= |data| && data[p..p + |bs|] == bs
  }

  lemma {:induction false} BytesAtConcat(data: seq<byte>, p: nat, a: seq<byte>, b: seq<byte>)
    requires BytesAt(data, p, a + b)
    ensures BytesAt(data, p, a) && BytesAt(data, p + |a|, b)
  {
    var whole := data[p..p + |a + b|];
    assert data[p..p + |a|] == whole[..|a|] == a;
    assert data[p + |a|..p + |a| + |b|] == whole[|a|..] == b;
  }

  lemma {:induction false} ReadBack64(data: seq<byte>, p: nat, x: u64, v: u64)
    requires BytesAt(data, p, Encode(x, 8))
    ensures Read64(data, p, v) == x && ReadEnd(data, p, 8) == p + 8
  {
    Widths();
    FullRead(data, p, 8, v);
    DecodeOfEncode(x, 8);
  }

  lemma {:induction false} ReadBack32(data: seq<byte>, p: nat, x: u32, v: u32)
    requires BytesAt(data, p, Encode(x, 4))
    ensures Read32(data, p, v) == x && ReadEnd(data, p, 4) == p + 4
  {
    Widths();
    FullRead(data, p, 4, v);
    DecodeOfEncode(x, 4);
  }

  lemma {:induction false} ReadBackWords(data: seq<byte>, p: nat, doc: u64, ws: seq<u64>, word: u64)
    requires BytesAt(data, p, EncodeWords(ws))
    ensures DocPairs(data, p, doc, |ws|, word) == PairsOfDoc(Doc(doc, ws))
    ensures DocEnd(data, p, |ws|) == p + |EncodeWords(ws)|
    decreases |ws|
  {
    if ws != [] {
      BytesAtConcat(data, p, Encode(ws[0], 8), EncodeWords(ws[1..]));
      ReadBack64(data, p, ws[0], word);
      ReadBackWords(data, p + 8, doc, ws[1..], ws[0]);
      assert PairsOfDoc(Doc(doc, ws)) == [Pair(ws[0], doc)] + PairsOfDoc(Doc(doc, ws[1..]));
    }
  }

  lemma {:induction false} ReadBackDoc(data: seq<byte>, p: nat, d: Doc, cnt: u32, word: u64)
    requires |d.words| < 0x1_0000_0000 && BytesAt(data, p, EncodeDoc(d))
    ensures Read64(data, p, 0) == d.id
    ensures Read32(data, p + 8, cnt) == |d.words| && ReadEnd(data, p + 8, 4) == p + 12
    ensures DocPairs(data, p + 12, d.id, |d.words|, word) == PairsOfDoc(d)
    ensures DocEnd(data, p + 12, |d.words|) == p + |EncodeDoc(d)|
  {
    BytesAtConcat(data, p, Encode(d.id, 8) + Encode(|d.words|, 4), EncodeWords(d.words));
    BytesAtConcat(data, p, Encode(d.id, 8), Encode(|d.words|, 4));
    ReadBack64(data, p, d.id, 0);
    ReadBack32(data, p + 8, |d.words|, cnt);
    ReadBackWords(data, p + 12, d.id, d.words, word);
  }

  lemma {:induction false} SplitRest(data: seq<byte>, p: nat, a: seq<byte>, b: seq<byte>)
    requires p <= |data| && data[p..] == a + b
    ensures BytesAt(data, p, a) && data[p + |a|..] == b
  {
    assert data[p..p + |a|] == data[p..][..|a|] == a;
    assert data[p + |a|..] == data[p..][|a|..] == b;
  }

  lemma {:induction false} UnrollPairs(
    data: seq<byte>, p: nat, cnt: u32, word: u64, doc: u64, c: u32, q: nat, ps: seq<Pair>, end: nat, last: u64)
    requires p + 8 <= |data| && q <= |data|
    requires Read64(data, p, 0) == doc && Read32(data, p + 8, cnt) == c && ReadEnd(data, p + 8, 4) == q
    requires DocPairs(data, q, doc, c, word) == ps && DocEnd(data, q, c) == end && LastWord(data, q, c, word) == last
    ensures PairsFrom(data, p, cnt, word) == ps + PairsFrom(data, end, c, last)
  {
  }

  /** The word variable after the words `ws` were read into it. */
  function LastIn(ws: seq<u64>, word: u64): u64 {
    if ws == [] then word else ws[|ws| - 1]
  }

  /** The word variable after all words of `ds`. */
  function LastOf(ds: seq<Doc>, word: u64): u64 {
    if ds == [] then word else LastOf(ds[1..], LastIn(ds[0].words, word))
  }

  /** The count variable after `ds`. */
  function LastCount(ds: seq<Doc>, cnt: u32): u32
    requires CountsFit(ds)
  {
    if ds == [] then cnt else |ds[|ds| - 1].words|
  }

  lemma {:induction false} LastWordRead(data: seq<byte>, p: nat, ws: seq<u64>, word: u64)
    requires BytesAt(data, p, EncodeWords(ws))
    ensures LastWord(data, p, |ws|, word) == LastIn(ws, word)
    decreases |ws|
  {
    if ws != [] {
      BytesAtConcat(data, p, Encode(ws[0], 8), EncodeWords(ws[1..]));
      ReadBack64(data, p, ws[0], word);
      LastWordRead(data, p + 8, ws[1..], ws[0]);
    }
  }

  lemma {:induction false} WordsOfDocRead(data: seq<byte>, p: nat, d: Doc, word: u64)
    requires BytesAt(data, p, EncodeDoc(d))
    ensures p + 12 <= |data| && LastWord(data, p + 12, |d.words|, word) == LastIn(d.words, word)
  {
    BytesAtConcat(data, p, Encode(d.id, 8) + Encode(|d.words|, 4), EncodeWords(d.words));
    LastWordRead(data, p + 12, d.words, word);
  }

  /** Reading the first of some documents. */
  lemma {:induction false} ReadBackFirst(data: seq<byte>, p: nat, d: Doc, cnt: u32, word: u64, end: nat)
    requires |d.words| < 0x1_0000_0000 && BytesAt(data, p, EncodeDoc(d)) && end == p + |EncodeDoc(d)|
    ensures PairsFrom(data, p, cnt, word) == PairsOfDoc(d) + PairsFrom(data, end, |d.words|, LastIn(d.words, word))
  {
    ReadBackDoc(data, p, d, cnt, word);
    WordsOfDocRead(data, p, d, word);
    UnrollPairs(data, p, cnt, word, d.id, |d.words|, p + 12, PairsOfDoc(d), end, LastIn(d.words, word));
  }

  lemma {:induction false} Chained(
    all: seq<Pair>, rest: seq<Pair>, end: seq<Pair>, first: seq<Pair>, next: seq<Pair>, both: seq<Pair>)
    requires all == first + rest && rest == next + end && both == first + next
    ensures all == both + end
  {
  }

  lemma {:induction false} LastsAfterFirst(ds: seq<Doc>, cnt: u32, word: u64)
    requires CountsFit(ds) && ds != []
    ensures LastCount(ds, cnt) == LastCount(ds[1..], |ds[0].words|)
    ensures LastOf(ds, word) == LastOf(ds[1..], LastIn(ds[0].words, word))
  {
  }

  lemma {:induction false} FirstDocAt(data: seq<byte>, p: nat, ds: seq<Doc>, next: nat)
    requires ds != [] && BytesAt(data, p, EncodeDocs(ds)) && next == p + |EncodeDoc(ds[0])|
    ensures BytesAt(data, p, EncodeDoc(ds[0]))
    ensures BytesAt(data, next, EncodeDocs(ds[1..])) && next + |EncodeDocs(ds[1..])| == p + |EncodeDocs(ds)|
    ensures PairsOfDocs(ds) == PairsOfDoc(ds[0]) + PairsOfDocs(ds[1..])
  {
    BytesAtConcat(data, p, EncodeDoc(ds[0]), EncodeDocs(ds[1..]));
  }

  /** Reading complete documents, whatever follows them. */
  lemma {:induction false} ReadBackDocs(data: seq<byte>, p: nat, ds: seq<Doc>, cnt: u32, word: u64, end: nat)
    requires CountsFit(ds) && BytesAt(data, p, EncodeDocs(ds)) && end == p + |EncodeDocs(ds)|
    ensures PairsFrom(data, p, cnt, word)
         == PairsOfDocs(ds) + PairsFrom(data, end, LastCount(ds, cnt), LastOf(ds, word))
    decreases |ds|
  {
    if ds != [] {
      var next, last := p + |EncodeDoc(ds[0])|, LastIn(ds[0].words, word);
      FirstDocAt(data, p, ds, next);
      ReadBackFirst(data, p, ds[0], cnt, word, next);
      ReadBackDocs(data, next, ds[1..], |ds[0].words|, last, end);
      LastsAfterFirst(ds, cnt, word);
      Chained(PairsFrom(data, p, cnt, word), PairsFrom(data, next, |ds[0].words|, last),
              PairsFrom(data, end, LastCount(ds, cnt), LastOf(ds, word)),
              PairsOfDoc(ds[0]), PairsOfDocs(ds[1..]), PairsOfDocs(ds));
    } else {
      assert [] + PairsFrom(data, p, cnt, word) == PairsFrom(data, p, cnt, word);
    }
  }

  /** A well-formed input file yields the pairs of its documents, in order. */
  lemma {:induction false} PairsOfEncodedDocs(ds: seq<Doc>)
    requires CountsFit(ds)
    ensures PairsOf(EncodeDocs(ds)) == PairsOfDocs(ds)
  {
    var data := EncodeDocs(ds);
    assert data[0..|data|] == data;
    ReadBackDocs(data, 0, ds, 0, 0, |data|);
  }
}
