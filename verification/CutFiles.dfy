/** Input files that end in the middle of a record: what the programs read from any sequence of bytes. */
module CutFiles {
  import opened Sequences
  import opened Decimal
  import opened Bytes
  import opened PairText
  import opened DocStream

  /** What is behind the last complete record: a cut id, a record with a cut count, or one with too few words. */
  datatype Cut =
    | InId(rest: seq<byte>)
    | InCount(id: u64, rest: seq<byte>)
    | InWords(id: u64, n: u32, ws: seq<u64>, rest: seq<byte>)

  predicate IsCut(c: Cut) {
    match c
    case InId(rest) => |rest| < 8
    case InCount(id, rest) => |rest| < 4
    case InWords(id, n, ws, rest) => |ws| < n && |rest| < 8
  }

  function CutBytes(c: Cut): seq<byte> {
    match c
    case InId(rest) => rest
    case InCount(id, rest) => Encode(id, 8) + rest
    case InWords(id, n, ws, rest) => Encode(id, 8) + (Encode(n, 4) + (EncodeWords(ws) + rest))
  }

  function Same(p: Pair, n: nat): (ps: seq<Pair>)
    ensures |ps| == n && forall i :: 0 <= i < n ==> ps[i] == p
  {
    seq(n, _ => p)
  }

  /** The pairs of a cut record, when the count and the word variable hold `cnt` and `word` before it: the missing
      bytes of a number are those of the one before it, and the last word is repeated. */
  function CutPairs(c: Cut, cnt: u32, word: u64): seq<Pair>
    requires IsCut(c)
  {
    Widths();
    match c
    case InId(rest) => []
    case InCount(id, rest) => Same(Pair(word, id), Overwritten(cnt, rest, 4))
    case InWords(id, n, ws, rest) =>
      PairsOfDoc(Doc(id, ws)) + Same(Pair(Overwritten(LastIn(ws, word), rest, 8), id), n - |ws|)
  }

  /** At the end of the file the variable keeps its value. */
  lemma {:induction false} ReadNothing(data: seq<byte>, v: u64)
    ensures ReadEnd(data, |data|, 8) == |data| && Read64(data, |data|, v) == v
  {
    Widths();
    DecodeOfEncode(v, 8);
    assert data[|data|..|data|] + Encode(v, 8)[0..] == Encode(v, 8);
  }

  lemma {:induction false} PairsAtEnd(data: seq<byte>, doc: u64, left: nat, word: u64)
    ensures DocPairs(data, |data|, doc, left, word) == Same(Pair(word, doc), left)
    ensures DocEnd(data, |data|, left) == |data|
    decreases left
  {
    ReadNothing(data, word);
    if left > 0 {
      PairsAtEnd(data, doc, left - 1, word);
      assert Same(Pair(word, doc), left) == [Pair(word, doc)] + Same(Pair(word, doc), left - 1);
    }
  }

  /** A word of which less than 8 bytes are there, and the missing ones behind it. */
  lemma {:induction false} PairsOfCutWord(data: seq<byte>, p: nat, doc: u64, left: nat, word: u64)
    requires p <= |data| < p + 8 && left > 0
    ensures Overwritten(word, data[p..], 8) < Power256(8) == U64_LIMIT
    ensures DocPairs(data, p, doc, left, word) == Same(Pair(Overwritten(word, data[p..], 8), doc), left)
    ensures DocEnd(data, p, left) == |data|
  {
    Widths();
    assert data[p..|data|] == data[p..];
    var w := Read64(data, p, word);
    PairsAtEnd(data, doc, left - 1, w);
    assert Same(Pair(w, doc), left) == [Pair(w, doc)] + Same(Pair(w, doc), left - 1);
  }

  lemma {:induction false} FirstPair(doc: u64, ws: seq<u64>, word: u64)
    requires ws != []
    ensures PairsOfDoc(Doc(doc, ws)) == [Pair(ws[0], doc)] + PairsOfDoc(Doc(doc, ws[1..]))
    ensures LastIn(ws, word) == LastIn(ws[1..], ws[0])
  {
  }

  lemma {:induction false} FirstWordRead(
    data: seq<byte>, p: nat, doc: u64, ws: seq<u64>, left: nat, word: u64)
    requires ws != [] && BytesAt(data, p, EncodeWords(ws)) && left > 0
    ensures p + 8 <= |data| && BytesAt(data, p + 8, EncodeWords(ws[1..]))
    ensures DocPairs(data, p, doc, left, word) == [Pair(ws[0], doc)] + DocPairs(data, p + 8, doc, left - 1, ws[0])
    ensures DocEnd(data, p, left) == DocEnd(data, p + 8, left - 1)
  {
    BytesAtConcat(data, p, Encode(ws[0], 8), EncodeWords(ws[1..]));
    ReadBack64(data, p, ws[0], word);
  }

  /** Complete words, whatever follows them. */
  lemma {:induction false} PairsOfWords(
    data: seq<byte>, p: nat, doc: u64, ws: seq<u64>, left: nat, word: u64, more: nat, end: nat)
    requires BytesAt(data, p, EncodeWords(ws)) && end == p + |EncodeWords(ws)| && left == |ws| + more
    ensures DocPairs(data, p, doc, left, word)
         == PairsOfDoc(Doc(doc, ws)) + DocPairs(data, end, doc, more, LastIn(ws, word))
    ensures DocEnd(data, p, left) == DocEnd(data, end, more)
    decreases |ws|
  {
    if ws == [] {
      assert [] + DocPairs(data, p, doc, left, word) == DocPairs(data, p, doc, left, word);
    } else {
      FirstWordRead(data, p, doc, ws, left, word);
      PairsOfWords(data, p + 8, doc, ws[1..], left - 1, ws[0], more, end);
      FirstPair(doc, ws, word);
      Chained(DocPairs(data, p, doc, left, word), DocPairs(data, p + 8, doc, left - 1, ws[0]),
              DocPairs(data, end, doc, more, LastIn(ws, word)),
              [Pair(ws[0], doc)], PairsOfDoc(Doc(doc, ws[1..])), PairsOfDoc(Doc(doc, ws)));
    }
  }

  /** A record whose count is cut: its words are all missing. */
  lemma {:induction false} CountIsCut(data: seq<byte>, p: nat, id: u64, rest: seq<byte>, cnt: u32, word: u64)
    requires p <= |data| && data[p..] == CutBytes(InCount(id, rest)) && |rest| < 4
    ensures PairsFrom(data, p, cnt, word) == CutPairs(InCount(id, rest), cnt, word)
  {
    Widths();
    SplitRest(data, p, Encode(id, 8), rest);
    ReadBack64(data, p, id, 0);
    var c := Read32(data, p + 8, cnt);
    assert data[p + 8..|data|] == rest;
    PairsAtEnd(data, id, c, word);
    LastRecord(data, p, id, c, |data|, cnt, word, Same(Pair(word, id), c));
  }

  lemma {:induction false} WordsAreCut(
    data: seq<byte>, q: nat, id: u64, n: nat, ws: seq<u64>, word: u64, end: nat)
    requires BytesAt(data, q, EncodeWords(ws)) && end == q + |EncodeWords(ws)| && |data| < end + 8 && |ws| < n
    ensures Overwritten(LastIn(ws, word), data[end..], 8) < Power256(8) == U64_LIMIT
    ensures DocPairs(data, q, id, n, word)
         == PairsOfDoc(Doc(id, ws)) + Same(Pair(Overwritten(LastIn(ws, word), data[end..], 8), id), n - |ws|)
    ensures DocEnd(data, q, n) == |data|
  {
    PairsOfWords(data, q, id, ws, n, word, n - |ws|, end);
    PairsOfCutWord(data, end, id, n - |ws|, LastIn(ws, word));
  }

  /** Where the parts of a record with too few words are. */
  lemma {:induction false} CutRecordAt(
    data: seq<byte>, p: nat, id: u64, n: u32, ws: seq<u64>, rest: seq<byte>, cnt: u32, end: nat)
    requires p <= |data| && data[p..] == CutBytes(InWords(id, n, ws, rest)) && end == p + 12 + |EncodeWords(ws)|
    ensures p + 12 <= |data| && Read64(data, p, 0) == id
    ensures Read32(data, p + 8, cnt) == n && ReadEnd(data, p + 8, 4) == p + 12
    ensures BytesAt(data, p + 12, EncodeWords(ws)) && data[end..] == rest
  {
    SplitRest(data, p, Encode(id, 8), Encode(n, 4) + (EncodeWords(ws) + rest));
    SplitRest(data, p + 8, Encode(n, 4), EncodeWords(ws) + rest);
    SplitRest(data, p + 12, EncodeWords(ws), rest);
    ReadBack64(data, p, id, 0);
    ReadBack32(data, p + 8, n, cnt);
  }

  lemma {:induction false} LastRecord(
    data: seq<byte>, p: nat, id: u64, n: u32, q: nat, cnt: u32, word: u64, ps: seq<Pair>)
    requires p + 8 <= |data| && q <= |data| && DocEnd(data, q, n) == |data| && DocPairs(data, q, id, n, word) == ps
    requires Read64(data, p, 0) == id && Read32(data, p + 8, cnt) == n && ReadEnd(data, p + 8, 4) == q
    ensures PairsFrom(data, p, cnt, word) == ps
  {
    UnrollPairs(data, p, cnt, word, id, n, q, ps, |data|, LastWord(data, q, n, word));
    assert PairsFrom(data, |data|, n, LastWord(data, q, n, word)) == [];
  }

  /** A record with fewer words than counted. */
  lemma {:induction false} WordsAreMissing(
    data: seq<byte>, p: nat, id: u64, n: u32, ws: seq<u64>, rest: seq<byte>, cnt: u32, word: u64)
    requires p <= |data| && data[p..] == CutBytes(InWords(id, n, ws, rest)) && |ws| < n && |rest| < 8
    ensures PairsFrom(data, p, cnt, word) == CutPairs(InWords(id, n, ws, rest), cnt, word)
  {
    var end := p + 12 + |EncodeWords(ws)|;
    CutRecordAt(data, p, id, n, ws, rest, cnt, end);
    WordsAreCut(data, p + 12, id, n, ws, word, end);
    LastRecord(data, p, id, n, p + 12, cnt, word, CutPairs(InWords(id, n, ws, rest), cnt, word));
  }

  lemma {:induction false} PairsOfCut(data: seq<byte>, p: nat, c: Cut, cnt: u32, word: u64)
    requires p <= |data| && data[p..] == CutBytes(c) && IsCut(c)
    ensures PairsFrom(data, p, cnt, word) == CutPairs(c, cnt, word)
  {
    match c
    case InId(rest) =>
    case InCount(id, rest) => CountIsCut(data, p, id, rest, cnt, word);
    case InWords(id, n, ws, rest) => WordsAreMissing(data, p, id, n, ws, rest, cnt, word);
  }

  /** Complete records and a cut one: the pairs of the documents, then those of the cut record. */
  lemma {:induction false} PairsOfCutFile(ds: seq<Doc>, c: Cut)
    requires CountsFit(ds) && IsCut(c)
    ensures PairsOf(EncodeDocs(ds) + CutBytes(c)) == PairsOfDocs(ds) + CutPairs(c, LastCount(ds, 0), LastOf(ds, 0))
  {
    var data, end := EncodeDocs(ds) + CutBytes(c), |EncodeDocs(ds)|;
    assert data[0..end] == EncodeDocs(ds) && data[end..] == CutBytes(c);
    ReadBackDocs(data, 0, ds, 0, 0, end);
    PairsOfCut(data, end, c, LastCount(ds, 0), LastOf(ds, 0));
  }

  // --- every file is of this kind -----------------------------------------------

  /** Any bytes are the encoding of words and a rest of less than 8 bytes, or of `n` words and any rest. */
  lemma {:induction false} SomeWords(bs: seq<byte>, n: nat) returns (ws: seq<u64>, rest: seq<byte>)
    ensures bs == EncodeWords(ws) + rest && |ws| <= n && (|ws| < n ==> |rest| < 8)
    decreases n
  {
    if n == 0 || |bs| < 8 {
      ws, rest := [], bs;
      assert bs == [] + bs;
    } else {
      Widths();
      EncodeOfDecode(bs[..8]);
      var w := Decode(bs[..8]);
      var ws', rest' := SomeWords(bs[8..], n - 1);
      ws, rest := [w] + ws', rest';
      assert ws[1..] == ws';
      ConcatAssociative(Encode(w, 8), EncodeWords(ws'), rest);
      assert bs == bs[..8] + bs[8..];
    }
  }

  /** What a file starts with: a complete record, or a cut one that is all of it. */
  lemma {:induction false} FirstRecord(data: seq<byte>) returns (whole: bool, d: Doc, rest: seq<byte>, c: Cut)
    ensures whole ==> |d.words| < 0x1_0000_0000 && data == EncodeDoc(d) + rest
    ensures !whole ==> IsCut(c) && data == CutBytes(c)
  {
    whole, d, rest, c := false, Doc(0, []), [], InId([]);
    if |data| < 8 {
      c := InId(data);
      return;
    }
    Widths();
    var id, tail := Decode(data[..8]), data[8..];
    EncodeOfDecode(data[..8]);
    assert data == Encode(id, 8) + tail;
    if |tail| < 4 {
      c := InCount(id, tail);
      return;
    }
    var n := Decode(tail[..4]);
    EncodeOfDecode(tail[..4]);
    assert tail == Encode(n, 4) + tail[4..];
    var ws, more := SomeWords(tail[4..], n);
    if |ws| < n {
      c := InWords(id, n, ws, more);
    } else {
      whole, d, rest := true, Doc(id, ws), more;
      Regrouped(Encode(id, 8), Encode(n, 4), EncodeWords(ws), more);
    }
  }

  lemma {:induction false} Regrouped(a: seq<byte>, b: seq<byte>, c: seq<byte>, d: seq<byte>)
    ensures a + (b + (c + d)) == (a + b + c) + d
  {
  }

  /** Every sequence of bytes is a file of complete records and a cut one. */
  lemma {:induction false} EveryFileIsCut(data: seq<byte>) returns (ds: seq<Doc>, c: Cut)
    ensures CountsFit(ds) && IsCut(c) && data == EncodeDocs(ds) + CutBytes(c)
    decreases |data|
  {
    var whole, d, rest, cut := FirstRecord(data);
    if whole {
      var ds', c' := EveryFileIsCut(rest);
      ds, c := [d] + ds', c';
      assert ds[1..] == ds';
      ConcatAssociative(EncodeDoc(d), EncodeDocs(ds'), CutBytes(c));
    } else {
      ds, c := [], cut;
      assert EncodeDocs([]) + CutBytes(c) == CutBytes(c);
    }
  }
}
