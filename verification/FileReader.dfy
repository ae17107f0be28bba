/** Reading the input file: the pair stream and the number of documents of every word. */
module FileReader {
  import opened Decimal
  import opened Bytes
  import opened DocStream
  import opened PairText
  import opened WordIndex

  /** `counts` holds every word of `ps` with the number of its pairs. */
  ghost predicate CountsWords(counts: map<u64, nat>, ps: seq<Pair>) {
    forall w: u64 :: (w in counts <==> DocsOf(ps, w) != []) && (w in counts ==> counts[w] == |DocsOf(ps, w)|)
  }

  lemma {:induction false} CountOne(counts: map<u64, nat>, ps: seq<Pair>, p: Pair)
    requires CountsWords(counts, ps)
    ensures p.word !in counts ==> CountsWords(counts[p.word := 1], ps + [p])
    ensures p.word in counts ==> CountsWords(counts[p.word := counts[p.word] + 1], ps + [p])
  {
    forall w: u64 ensures DocsOf(ps + [p], w) == DocsOf(ps, w) + (if p.word == w then [p.doc] else []) {
      DocsOfAppend(ps, [p], w);
    }
  }

  class FileReader {
    var word_dict_: map<u64, nat>
    const filename_: seq<byte>

    constructor (input: seq<byte>)
      ensures filename_ == input && word_dict_ == map[]
    {
      filename_ := input;
      word_dict_ := map[];
    }

    /** Writes a "word doc " pair for every word of every document and counts the words. */
    method Read() returns (pairs: string)
      requires word_dict_ == map[]
      modifies this
      ensures pairs == Render(PairsOf(filename_))
      ensures CountsWords(word_dict_, PairsOf(filename_))
    {
      var fin := new BinStream(filename_);
      var cur_docid: u64, cur_word: u64, cnt_words: u32 := 0, 0, 0;
      pairs := "";
      ghost var done: seq<Pair> := [];
      FileStart(filename_);
      while true
        invariant fin.Valid() && fin.data == filename_ && fresh(fin)
        invariant InFile(fin.data, fin.pos, cnt_words, cur_word, done)
        invariant pairs == Render(done) && CountsWords(word_dict_, done)
        decreases |filename_| - fin.pos
      {
        ghost var p, doc := fin.pos, cur_docid;
        cur_docid := fin.ReadU64(cur_docid);
        if fin.fail {
          FileEnd(fin.data, p, cnt_words, cur_word, done);
          break;
        }
        cnt_words, cur_word, pairs, done := ReadRecord(fin, cur_docid, cnt_words, cur_word, pairs, p, doc, done);
      }
    }

    /** Reads what follows a document id: the number of words and the words. */
    method ReadRecord(fin: BinStream, cur_docid: u64, cnt: u32, word: u64, text: string,
                      ghost p: nat, ghost doc: u64, ghost before: seq<Pair>)
      returns (cnt_words: u32, cur_word: u64, pairs: string, ghost done: seq<Pair>)
      requires fin.Valid() && fin.pos == p + 8 <= |fin.data| && cur_docid == Read64(fin.data, p, doc)
      requires InFile(fin.data, p, cnt, word, before) && text == Render(before) && CountsWords(word_dict_, before)
      modifies `word_dict_, fin
      ensures fin.Valid() && fin.pos > p && InFile(fin.data, fin.pos, cnt_words, cur_word, done)
      ensures pairs == Render(done) && CountsWords(word_dict_, done)
    {
      FileStep(fin.data, p, cnt, word, before, doc);
      cnt_words := fin.ReadU32(cnt);
      pairs, cur_word, done := ReadDocument(fin, cur_docid, cnt_words, word, text, before);
    }

    /** Reads the words of one document. */
    method ReadDocument(
      fin: BinStream, cur_docid: u64, cnt_words: u32, word: u64, text: string, ghost before: seq<Pair>)
      returns (pairs: string, cur_word: u64, ghost done: seq<Pair>)
      requires fin.Valid() && text == Render(before) && CountsWords(word_dict_, before)
      modifies `word_dict_, fin
      ensures fin.Valid() && fin.pos == DocEnd(fin.data, old(fin.pos), cnt_words)
      ensures cur_word == LastWord(fin.data, old(fin.pos), cnt_words, word)
      ensures done == before + DocPairs(fin.data, old(fin.pos), cur_docid, cnt_words, word)
      ensures pairs == Render(done) && CountsWords(word_dict_, done)
    {
      pairs, cur_word, done := text, word, before;
      ghost var all := before + DocPairs(fin.data, fin.pos, cur_docid, cnt_words, word);
      ghost var end, last := DocEnd(fin.data, fin.pos, cnt_words), LastWord(fin.data, fin.pos, cnt_words, word);
      for i := 0 to cnt_words
        invariant fin.Valid()
        invariant InDocument(fin.data, fin.pos, cur_docid, cnt_words - i, cur_word, done, all, end, last)
        invariant pairs == Render(done) && CountsWords(word_dict_, done)
      {
        cur_word, pairs := ReadWord(fin, cur_docid, cur_word, pairs, cnt_words - i, done, all, end, last);
        done := done + [Pair(cur_word, cur_docid)];
      }
      assert done + [] == done;
    }

    /** Reads one word, counts it and writes its pair. */
    method ReadWord(fin: BinStream, cur_docid: u64, word: u64, text: string,
                    ghost left: nat, ghost done: seq<Pair>, ghost all: seq<Pair>, ghost end: nat, ghost last: u64)
      returns (cur_word: u64, pairs: string)
      requires fin.Valid() && left > 0
      requires InDocument(fin.data, fin.pos, cur_docid, left, word, done, all, end, last)
      requires text == Render(done) && CountsWords(word_dict_, done)
      modifies `word_dict_, fin
      ensures fin.Valid()
      ensures InDocument(fin.data, fin.pos, cur_docid, left - 1, cur_word, done + [Pair(cur_word, cur_docid)],
                         all, end, last)
      ensures pairs == Render(done + [Pair(cur_word, cur_docid)])
      ensures CountsWords(word_dict_, done + [Pair(cur_word, cur_docid)])
    {
      DocStep(fin.data, fin.pos, cur_docid, left, word, done, all, end, last);
      cur_word := fin.ReadU64(word);
      pairs := AddPair(Pair(cur_word, cur_docid), text, done);
    }

    /** Counts a word and writes its pair. */
    method AddPair(p: Pair, text: string, ghost done: seq<Pair>) returns (pairs: string)
      requires text == Render(done) && CountsWords(word_dict_, done)
      modifies `word_dict_
      ensures pairs == Render(done + [p]) && CountsWords(word_dict_, done + [p])
    {
      CountOne(word_dict_, done, p);
      if p.word !in word_dict_ {
        word_dict_ := word_dict_[p.word := 1];
      } else {
        word_dict_ := word_dict_[p.word := word_dict_[p.word] + 1];
      }
      WritePair(text, p);
      RenderSnoc(done, p);
      pairs := text + Show(p.word) + " " + Show(p.doc) + " ";
    }
  }
}
