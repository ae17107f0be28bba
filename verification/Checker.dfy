/** The in-memory program that the stress test takes as the specification of the index file. */
module Checker {
  import opened Decimal
  import opened Bytes
  import opened DocStream
  import opened PairText
  import opened WordIndex
  import opened IndexFormat
  import opened IndexWriter

  /** What the in-memory program writes for an input file. */
  function CheckerBytes(data: seq<byte>): seq<byte> {
    IndexBytes(InputTable(PairsOf(data)))
  }

  /** `dict` maps every word of `ps` to its documents, in input order. */
  ghost predicate ListsDocs(dict: map<u64, seq<u64>>, ps: seq<Pair>) {
    forall w: u64 :: (w in dict <==> DocsOf(ps, w) != []) && (w in dict ==> dict[w] == DocsOf(ps, w))
  }

  lemma {:induction false} PushDoc(dict: map<u64, seq<u64>>, ps: seq<Pair>, p: Pair)
    requires ListsDocs(dict, ps)
    ensures var old_docs := if p.word in dict then dict[p.word] else [];
            ListsDocs(dict[p.word := old_docs + [p.doc]], ps + [p])
  {
    forall w: u64 ensures DocsOf(ps + [p], w) == DocsOf(ps, w) + (if p.word == w then [p.doc] else []) {
      DocsOfAppend(ps, [p], w);
    }
  }

  /** Reads the input into `word_dict`, then writes header and posting lists. */
  method Check(input: seq<byte>) returns (right_ans: seq<byte>)
    ensures right_ans == CheckerBytes(input)
  {
    var word_dict := ReadInput(input);
    right_ans := WriteIndex(word_dict, PairsOf(input));
  }

  /** Writes header and posting lists of a dictionary. */
  method WriteIndex(word_dict: map<u64, seq<u64>>, ghost ps: seq<Pair>) returns (right_ans: seq<byte>)
    requires ListsDocs(word_dict, ps)
    ensures right_ans == IndexBytes(InputTable(ps))
  {
    KeysAreWords(word_dict, ps);
    var ks := Ascending(word_dict.Keys);
    ghost var table := InputTable(ps);
    var counts: map<u64, nat> := map w | w in word_dict :: |word_dict[w]|;
    assert forall i :: 0 <= i < |ks| ==> ks[i] in word_dict.Keys;
    right_ans := WriteHeader(ks, counts, table);
    var lists := WritePostings(ks, word_dict, table);
    right_ans := right_ans + lists;
  }

  method WritePostings(ks: seq<u64>, word_dict: map<u64, seq<u64>>, ghost table: seq<Entry>) returns (out: seq<byte>)
    requires |ks| == |table|
    requires forall i :: 0 <= i < |ks| ==> ks[i] in word_dict && table[i] == Entry(ks[i], word_dict[ks[i]])
    ensures out == Postings(table)
  {
    out := [];
    PostingsStart(table);
    for i := 0 to |ks|
      invariant PostingsUpTo(out, table, i)
    {
      PostingsStep(out, table, i);
      var cnt_docs := |word_dict[ks[i]]| % 0x1_0000_0000;
      var docs := WriteDocs(word_dict[ks[i]]);
      out := out + (Encode(cnt_docs, 4) + docs);
    }
    PostingsDone(out, table);
  }

  method WriteDocs(docs: seq<u64>) returns (out: seq<byte>)
    ensures out == EncodeWords(docs)
  {
    out := [];
    for j := 0 to |docs|
      invariant out == EncodeWords(docs[..j])
    {
      EncodeWordsSnoc(docs[..j], docs[j]);
      assert docs[..j + 1] == docs[..j] + [docs[j]];
      out := out + Encode(docs[j], 8);
    }
    assert docs[..|docs|] == docs;
  }

  method ReadInput(input: seq<byte>) returns (word_dict: map<u64, seq<u64>>)
    ensures ListsDocs(word_dict, PairsOf(input))
  {
    var fin := new BinStream(input);
    var cur_docid: u64, cur_word: u64, cnt_words: u32 := 0, 0, 0;
    word_dict := map[];
    ghost var done: seq<Pair> := [];
    FileStart(input);
    while true
      invariant fin.Valid() && fin.data == input && fresh(fin)
      invariant InFile(fin.data, fin.pos, cnt_words, cur_word, done)
      invariant ListsDocs(word_dict, done)
      decreases |input| - fin.pos
    {
      if fin.pos + 8 <= |fin.data| {
        FileStep(fin.data, fin.pos, cnt_words, cur_word, done, cur_docid);
      } else {
        FileEnd(fin.data, fin.pos, cnt_words, cur_word, done);
      }
      cur_docid := fin.ReadU64(cur_docid);
      if fin.fail {
        break;
      }
      cnt_words := fin.ReadU32(cnt_words);
      word_dict, cur_word, done := ReadDocument(fin, cur_docid, cnt_words, cur_word, word_dict, done);
    }
  }

  method ReadDocument(
    fin: BinStream, cur_docid: u64, cnt_words: u32, word: u64, dict: map<u64, seq<u64>>, ghost before: seq<Pair>)
    returns (word_dict: map<u64, seq<u64>>, cur_word: u64, ghost done: seq<Pair>)
    requires fin.Valid() && ListsDocs(dict, before)
    modifies fin
    ensures fin.Valid() && fin.pos == DocEnd(fin.data, old(fin.pos), cnt_words)
    ensures cur_word == LastWord(fin.data, old(fin.pos), cnt_words, word)
    ensures done == before + DocPairs(fin.data, old(fin.pos), cur_docid, cnt_words, word)
    ensures ListsDocs(word_dict, done)
  {
    word_dict, cur_word, done := dict, word, before;
    ghost var all := before + DocPairs(fin.data, fin.pos, cur_docid, cnt_words, word);
    ghost var end, last := DocEnd(fin.data, fin.pos, cnt_words), LastWord(fin.data, fin.pos, cnt_words, word);
    for i := 0 to cnt_words
      invariant fin.Valid()
      invariant InDocument(fin.data, fin.pos, cur_docid, cnt_words - i, cur_word, done, all, end, last)
      invariant ListsDocs(word_dict, done)
    {
      DocStep(fin.data, fin.pos, cur_docid, cnt_words - i, cur_word, done, all, end, last);
      cur_word := fin.ReadU64(cur_word);
      word_dict := AddDoc(word_dict, Pair(cur_word, cur_docid), done);
      done := done + [Pair(cur_word, cur_docid)];
    }
    assert done + [] == done;
  }

  /** `word_dict[cur_word].push_back(cur_docid)` */
  method AddDoc(dict: map<u64, seq<u64>>, p: Pair, ghost done: seq<Pair>) returns (word_dict: map<u64, seq<u64>>)
    requires ListsDocs(dict, done)
    ensures ListsDocs(word_dict, done + [p])
  {
    PushDoc(dict, done, p);
    word_dict := dict;
    if p.word !in word_dict {
      word_dict := word_dict[p.word := []];
    }
    word_dict := word_dict[p.word := word_dict[p.word] + [p.doc]];
    assert word_dict == dict[p.word := (if p.word in dict then dict[p.word] else []) + [p.doc]];
  }
}
