/** Reading an index file back. */
module IndexReader {
  import opened Sequences
  import opened Decimal
  import opened Bytes
  import opened DocStream
  import opened IndexFormat

  /** The (word, offset) rows of the header. */
  function HeaderRows(table: seq<Entry>, offset: nat): (rows: seq<(u64, u64)>)
    ensures |rows| == |table| && forall i :: 0 <= i < |table| ==> rows[i].0 == table[i].word
  {
    if table == [] then []
    else [(table[0].word, offset % U64_LIMIT)] + HeaderRows(table[1..], offset + 4 + 8 * |table[0].docs|)
  }

  function Lists(table: seq<Entry>): (lists: seq<seq<u64>>)
    ensures |lists| == |table| && forall i :: 0 <= i < |table| ==> lists[i] == table[i].docs
  {
    seq(|table|, i requires 0 <= i < |table| => table[i].docs)
  }

  predicate CountsFit32(table: seq<Entry>) {
    forall i :: 0 <= i < |table| ==> |table[i].docs| < 0x1_0000_0000
  }

  /** From position `p` on, `data` holds exactly `bs`. */
  ghost predicate RestIs(data: seq<byte>, p: nat, bs: seq<byte>) {
    p <= |data| && data[p..] == bs
  }

  /** A 64-bit number at the front of the rest is read, and the rest goes on behind it. */
  lemma {:induction false} Next64(data: seq<byte>, p: nat, x: u64, v: u64, rest: seq<byte>)
    requires RestIs(data, p, Encode(x, 8) + rest)
    ensures Read64(data, p, v) == x && ReadEnd(data, p, 8) == p + 8 && RestIs(data, p + 8, rest)
  {
    SplitRest(data, p, Encode(x, 8), rest);
    ReadBack64(data, p, x, v);
  }

  lemma {:induction false} Next32(data: seq<byte>, p: nat, x: u32, v: u32, rest: seq<byte>)
    requires RestIs(data, p, Encode(x, 4) + rest)
    ensures Read32(data, p, v) == x && ReadEnd(data, p, 4) == p + 4 && RestIs(data, p + 4, rest)
  {
    SplitRest(data, p, Encode(x, 4), rest);
    ReadBack32(data, p, x, v);
  }

  /** The header entries of `t` are ahead, and behind them the terminator and `lists`. */
  ghost predicate RowsAhead(data: seq<byte>, p: nat, t: seq<Entry>, offset: nat, lists: seq<byte>) {
    RestIs(data, p, Header(t, offset) + (TERMINATOR + lists))
  }

  /** Reading one row of the header. */
  lemma {:induction false} NextRow(
    data: seq<byte>, p: nat, t: seq<Entry>, offset: nat, lists: seq<byte>, w0: u64, o0: u64)
    requires t != [] && RowsAhead(data, p, t, offset, lists)
    ensures Read64(data, p, w0) == t[0].word && ReadEnd(data, p, 8) == p + 8 <= |data|
    ensures Read64(data, p + 8, o0) == offset % U64_LIMIT && ReadEnd(data, p + 8, 8) == p + 16
    ensures RowsAhead(data, p + 16, t[1..], offset + 4 + 8 * |t[0].docs|, lists)
  {
    var w, o := Encode(t[0].word, 8), Encode(offset % U64_LIMIT, 8);
    var more, tail := Header(t[1..], offset + 4 + 8 * |t[0].docs|), TERMINATOR + lists;
    ConcatAssociative(w, o, more);
    ConcatAssociative(w, o + more, tail);
    ConcatAssociative(o, more, tail);
    Next64(data, p, t[0].word, w0, o + (more + tail));
    Next64(data, p + 8, offset % U64_LIMIT, o0, more + tail);
  }

  /** Reading the terminator. */
  lemma {:induction false} LastRow(data: seq<byte>, p: nat, offset: nat, lists: seq<byte>, w0: u64, o0: u64)
    requires RowsAhead(data, p, [], offset, lists)
    ensures Read64(data, p, w0) == 0 && ReadEnd(data, p, 8) == p + 8 <= |data|
    ensures Read64(data, p + 8, o0) == 0 && ReadEnd(data, p + 8, 8) == p + 16
    ensures RestIs(data, p + 16, lists)
  {
    var zero := Encode(0, 8);
    assert [] + (TERMINATOR + lists) == TERMINATOR + lists;
    ConcatAssociative(zero, zero, lists);
    Next64(data, p, 0, w0, zero + lists);
    Next64(data, p + 8, 0, o0, lists);
  }

  /** Reading one posting list. */
  lemma {:induction false} NextList(data: seq<byte>, p: nat, t: seq<Entry>, v: u32)
    requires t != [] && RestIs(data, p, Postings(t)) && |t[0].docs| < 0x1_0000_0000
    ensures Read32(data, p, v) == |t[0].docs| && ReadEnd(data, p, 4) == p + 4
    ensures RestIs(data, p + 4, EncodeWords(t[0].docs) + Postings(t[1..]))
  {
    var n, docs, rest := Encode(|t[0].docs|, 4), EncodeWords(t[0].docs), Postings(t[1..]);
    assert Postings(t) == (n + docs) + rest;
    ConcatAssociative(n, docs, rest);
    Next32(data, p, |t[0].docs|, v, docs + rest);
  }

  /** Reading one document of a list. */
  lemma {:induction false} NextDoc(data: seq<byte>, p: nat, docs: seq<u64>, v: u64, rest: seq<byte>)
    requires docs != [] && RestIs(data, p, EncodeWords(docs) + rest)
    ensures Read64(data, p, v) == docs[0] && ReadEnd(data, p, 8) == p + 8
    ensures RestIs(data, p + 8, EncodeWords(docs[1..]) + rest)
  {
    ConcatAssociative(Encode(docs[0], 8), EncodeWords(docs[1..]), rest);
    Next64(data, p, docs[0], v, EncodeWords(docs[1..]) + rest);
  }

  /** The first offset, the header length and the list lengths add up to the file. */
  lemma {:induction false} FileLength(table: seq<Entry>)
    ensures 16 * (|table| + 1) + |Postings(table)| == |IndexBytes(table)|
  {
    HeaderLength(table, 16 * (|table| + 1));
  }

  /** The file is the index of `table`, and no count or offset in it was cut off. */
  ghost predicate IsIndex(file: seq<byte>, table: seq<Entry>) {
    file == IndexBytes(table) && |file| < U64_LIMIT && CountsFit32(table)
  }

  /** The table whose words are in the rows and whose documents are in the lists. */
  function Rebuilt(rows: seq<(u64, u64)>, lists: seq<seq<u64>>): seq<Entry>
    requires |rows| >= |lists|
  {
    seq(|lists|, i requires 0 <= i < |lists| => Entry(rows[i].0, lists[i]))
  }

  /** Header rows, the terminator included, and posting lists whose index is the file. */
  ghost predicate Decoded(file: seq<byte>, rows: seq<(u64, u64)>, lists: seq<seq<u64>>) {
    && |rows| == |lists| + 1 && IsIndex(file, Rebuilt(rows, lists))
    && rows == HeaderRows(Rebuilt(rows, lists), 16 * |rows|) + [(0, 0)]
  }

  /** Prints the header rows, the terminator included, and the posting lists of an index file. */
  method PrintReadable(file: seq<byte>) returns (rows: seq<(u64, u64)>, lists: seq<seq<u64>>)
    requires exists table :: IsIndex(file, table)
    ensures Decoded(file, rows, lists)
  {
    ghost var table :| IsIndex(file, table);
    var fin := new BinStream(file);
    var cnt_words;
    rows, cnt_words := ReadHeader(fin, table);
    lists := ReadLists(fin, cnt_words, table);
    assert Rebuilt(rows, lists) == table;
  }

  /** The terminator is recognised: a row is all zero exactly when no table row is left. */
  lemma {:induction false} RowOrEnd(
    data: seq<byte>, p: nat, t: seq<Entry>, offset: nat, lists: seq<byte>, w0: u64, o0: u64)
    requires RowsAhead(data, p, t, offset, lists) && 0 < offset && (t != [] ==> offset < U64_LIMIT)
    ensures ReadEnd(data, p, 8) == p + 8 <= |data| && ReadEnd(data, p + 8, 8) == p + 16
    ensures t == [] <==> Read64(data, p, w0) == 0 && Read64(data, p + 8, o0) == 0
    ensures t == [] ==> RestIs(data, p + 16, lists)
    ensures t != [] ==> Read64(data, p, w0) == t[0].word && Read64(data, p + 8, o0) == offset
                        && RowsAhead(data, p + 16, t[1..], offset + 4 + 8 * |t[0].docs|, lists)
  {
    if t == [] {
      LastRow(data, p, offset, lists, w0, o0);
    } else {
      NextRow(data, p, t, offset, lists, w0, o0);
    }
  }

  lemma {:induction false} OffsetMoves(t: seq<Entry>, offset: nat)
    requires t != []
    ensures offset + |Postings(t)| == (offset + 4 + 8 * |t[0].docs|) + |Postings(t[1..])|
  {
    EncodeWordsLength(t[0].docs);
  }

  /** The header entries of `t` are ahead, and no offset in them was cut off. */
  ghost predicate UncutRows(data: seq<byte>, p: nat, t: seq<Entry>, offset: nat, lists: seq<byte>) {
    RowsAhead(data, p, t, offset, lists) && 0 < offset && offset + |Postings(t)| < U64_LIMIT
  }

  lemma {:induction false} UncutNext(data: seq<byte>, p: nat, t: seq<Entry>, offset: nat, lists: seq<byte>)
    requires UncutRows(data, p, t, offset, lists)
    ensures t == [] <==> Read64(data, p, 0) == 0 && Read64(data, p + 8, 0) == 0
    ensures t == [] ==> RestIs(data, p + 16, lists)
    ensures t != [] ==> Read64(data, p, 0) == t[0].word
                        && UncutRows(data, p + 16, t[1..], offset + 4 + 8 * |t[0].docs|, lists)
  {
    RowOrEnd(data, p, t, offset, lists, 0, 0);
    if t != [] {
      OffsetMoves(t, offset);
    }
  }

  /** Two header readings of the same bytes find the same words and the same rest. */
  lemma {:induction false} SameRows(
    data: seq<byte>, p: nat, t: seq<Entry>, u: seq<Entry>, ot: nat, ou: nat, lt: seq<byte>, lu: seq<byte>)
    requires UncutRows(data, p, t, ot, lt) && UncutRows(data, p, u, ou, lu)
    ensures |t| == |u| && (forall i :: 0 <= i < |t| ==> t[i].word == u[i].word) && lt == lu
    decreases |t|
  {
    UncutNext(data, p, t, ot, lt);
    UncutNext(data, p, u, ou, lu);
    if t != [] {
      SameRows(data, p + 16, t[1..], u[1..], ot + 4 + 8 * |t[0].docs|, ou + 4 + 8 * |u[0].docs|, lt, lu);
    }
  }

  /** Two readings of the same posting lists agree. */
  lemma {:induction false} SameLists(data: seq<byte>, p: nat, t: seq<Entry>, u: seq<Entry>)
    requires RestIs(data, p, Postings(t)) && RestIs(data, p, Postings(u))
    requires |t| == |u| && CountsFit32(t) && CountsFit32(u)
    ensures forall i :: 0 <= i < |t| ==> t[i].docs == u[i].docs
    decreases |t|
  {
    if t != [] {
      NextList(data, p, t, 0);
      NextList(data, p, u, 0);
      SameDocs(data, p + 4, t[0].docs, u[0].docs, Postings(t[1..]), Postings(u[1..]));
      SameLists(data, p + 4 + 8 * |t[0].docs|, t[1..], u[1..]);
    }
  }

  lemma {:induction false} SameDocs(
    data: seq<byte>, p: nat, a: seq<u64>, b: seq<u64>, x: seq<byte>, y: seq<byte>)
    requires RestIs(data, p, EncodeWords(a) + x) && RestIs(data, p, EncodeWords(b) + y) && |a| == |b|
    ensures a == b && RestIs(data, p + 8 * |a|, x) && RestIs(data, p + 8 * |a|, y)
  {
    EncodeWordsLength(a);
    EncodeWordsLength(b);
    SplitRest(data, p, EncodeWords(a), x);
    SplitRest(data, p, EncodeWords(b), y);
    EncodeWordsInjective(a, b);
  }

  /** A file is the index of at most one table. */
  lemma {:induction false} IndexIsUnique(file: seq<byte>, t: seq<Entry>, u: seq<Entry>)
    requires IsIndex(file, t) && IsIndex(file, u)
    ensures t == u
  {
    FileLength(t);
    FileLength(u);
    var ot, ou := 16 * (|t| + 1), 16 * (|u| + 1);
    ConcatAssociative(Header(t, ot), TERMINATOR, Postings(t));
    ConcatAssociative(Header(u, ou), TERMINATOR, Postings(u));
    SameRows(file, 0, t, u, ot, ou, Postings(t), Postings(u));
    SameLists(Postings(t), 0, t, u);
  }

  /** What the decoder finds in the index of a table are the rows and the lists of that table. */
  lemma {:induction false} DecodedIsTable(
    file: seq<byte>, table: seq<Entry>, rows: seq<(u64, u64)>, lists: seq<seq<u64>>)
    requires IsIndex(file, table)
    ensures Decoded(file, rows, lists)
       <==> rows == HeaderRows(table, 16 * (|lists| + 1)) + [(0, 0)] && lists == Lists(table)
    ensures Decoded(file, rows, lists) ==> Rebuilt(rows, lists) == table
  {
    if Decoded(file, rows, lists) {
      IndexIsUnique(file, Rebuilt(rows, lists), table);
      assert lists == Lists(table);
    }
    if rows == HeaderRows(table, 16 * (|lists| + 1)) + [(0, 0)] && lists == Lists(table) {
      assert Rebuilt(rows, lists) == table;
    }
  }

  /** The rows of `t`, whose first list is at `offset`, are still to be read. */
  ghost predicate RowsLeft(
    table: seq<Entry>, t: seq<Entry>, offset: nat, rows: seq<(u64, u64)>, cnt_words: nat, length: nat)
  {
    && rows + HeaderRows(t, offset) == HeaderRows(table, 16 * (|table| + 1))
    && cnt_words + |t| == |table|
    && 16 <= offset && (t != [] ==> 32 <= offset)
    && offset + |Postings(t)| == length
  }

  lemma {:induction false} RowsStart(table: seq<Entry>)
    ensures RowsLeft(table, table, 16 * (|table| + 1), [], 0, |IndexBytes(table)|)
  {
    FileLength(table);
  }

  lemma {:induction false} FirstRow(t: seq<Entry>, offset: nat)
    requires t != [] && offset < U64_LIMIT
    ensures HeaderRows(t, offset) == [(t[0].word, offset)] + HeaderRows(t[1..], offset + 4 + 8 * |t[0].docs|)
  {
  }

  lemma {:induction false} AppendFirst<T>(rows: seq<T>, row: T, next: seq<T>, all: seq<T>)
    requires all == [row] + next
    ensures rows + all == (rows + [row]) + next
  {
  }

  /** A row that was read is not the terminator: real offsets are at least 32. */
  lemma {:induction false} RowsNext(
    table: seq<Entry>, t: seq<Entry>, offset: nat, rows: seq<(u64, u64)>, cnt_words: nat, length: nat)
    requires t != [] && length < U64_LIMIT && RowsLeft(table, t, offset, rows, cnt_words, length)
    ensures 0 < offset < U64_LIMIT
    ensures RowsLeft(table, t[1..], offset + 4 + 8 * |t[0].docs|, rows + [(t[0].word, offset)], cnt_words + 1, length)
  {
    OffsetMoves(t, offset);
    FirstRow(t, offset);
    AppendFirst(rows, (t[0].word, offset), HeaderRows(t[1..], offset + 4 + 8 * |t[0].docs|), HeaderRows(t, offset));
  }

  lemma {:induction false} RowsEnd(table: seq<Entry>, offset: nat, rows: seq<(u64, u64)>, cnt_words: nat, length: nat)
    requires RowsLeft(table, [], offset, rows, cnt_words, length)
    ensures rows == HeaderRows(table, 16 * (|table| + 1)) && cnt_words == |table|
  {
    assert rows + HeaderRows([], offset) == rows;
  }

  /** Where the header loop stands. */
  ghost predicate Reading(
    data: seq<byte>, p: nat, table: seq<Entry>, t: seq<Entry>, offset: nat, rows: seq<(u64, u64)>, cnt_words: nat)
  {
    RowsAhead(data, p, t, offset, Postings(table)) && RowsLeft(table, t, offset, rows, cnt_words, |data|)
  }

  lemma {:induction false} ReadingStarts(data: seq<byte>, table: seq<Entry>)
    requires data == IndexBytes(table)
    ensures Reading(data, 0, table, table, 16 * (|table| + 1), [], 0)
  {
    ConcatAssociative(Header(table, 16 * (|table| + 1)), TERMINATOR, Postings(table));
    RowsStart(table);
  }

  /** What one row brings: the end of the header, or one row more. */
  ghost predicate RowRead(
    data: seq<byte>, p: nat, table: seq<Entry>, t: seq<Entry>, offset: nat, rows: seq<(u64, u64)>, cnt_words: nat,
    w: u64, o: u64)
  {
    if w == 0 && o == 0 then
      rows + [(w, o)] == HeaderRows(table, 16 * (|table| + 1)) + [(0, 0)] && cnt_words == |table|
      && RestIs(data, p, Postings(table))
    else
      t != []
      && Reading(data, p, table, t[1..], offset + 4 + 8 * |t[0].docs|, rows + [(w, o)], cnt_words + 1)
  }

  lemma {:induction false} ReadingGoesOn(
    data: seq<byte>, p: nat, table: seq<Entry>, t: seq<Entry>, offset: nat, rows: seq<(u64, u64)>, cnt_words: nat,
    w0: u64, o0: u64)
    requires |data| < U64_LIMIT && Reading(data, p, table, t, offset, rows, cnt_words)
    ensures ReadEnd(data, p, 8) == p + 8 <= |data| && ReadEnd(data, p + 8, 8) == p + 16
    ensures RowRead(data, p + 16, table, t, offset, rows, cnt_words, Read64(data, p, w0), Read64(data, p + 8, o0))
  {
    if t == [] {
      RowsEnd(table, offset, rows, cnt_words, |data|);
    } else {
      RowsNext(table, t, offset, rows, cnt_words, |data|);
    }
    RowOrEnd(data, p, t, offset, Postings(table), w0, o0);
  }

  method ReadHeader(fin: BinStream, ghost table: seq<Entry>) returns (rows: seq<(u64, u64)>, cnt_words: nat)
    requires fin.Valid() && fin.pos == 0 && fin.data == IndexBytes(table) && |fin.data| < U64_LIMIT
    modifies fin
    ensures fin.Valid() && rows == HeaderRows(table, 16 * (|table| + 1)) + [(0, 0)] && cnt_words == |table|
    ensures RestIs(fin.data, fin.pos, Postings(table))
  {
    var cur_w: u64, cur_offset: u64 := 0, 0;
    ghost var t := table;
    ghost var offset: nat := 16 * (|table| + 1);
    rows, cnt_words := [], 0;
    ReadingStarts(fin.data, table);
    while true
      invariant fin.Valid() && Reading(fin.data, fin.pos, table, t, offset, rows, cnt_words)
      decreases |t|
    {
      cur_w, cur_offset := ReadRow(fin, cur_w, cur_offset, table, t, offset, rows, cnt_words);
      rows := rows + [(cur_w, cur_offset)];
      if cur_w == 0 && cur_offset == 0 {
        break;
      }
      cnt_words := cnt_words + 1;
      t, offset := t[1..], offset + 4 + 8 * |t[0].docs|;
    }
  }

  method ReadRow(fin: BinStream, w0: u64, o0: u64, ghost table: seq<Entry>, ghost t: seq<Entry>, ghost offset: nat,
                 ghost rows: seq<(u64, u64)>, ghost cnt_words: nat)
    returns (w: u64, o: u64)
    requires fin.Valid() && |fin.data| < U64_LIMIT && Reading(fin.data, fin.pos, table, t, offset, rows, cnt_words)
    modifies fin
    ensures fin.Valid() && RowRead(fin.data, fin.pos, table, t, offset, rows, cnt_words, w, o)
  {
    ReadingGoesOn(fin.data, fin.pos, table, t, offset, rows, cnt_words, w0, o0);
    w := fin.ReadU64(w0);
    o := fin.ReadU64(o0);
  }

  method ReadLists(fin: BinStream, cnt_words: nat, ghost table: seq<Entry>) returns (lists: seq<seq<u64>>)
    requires fin.Valid() && RestIs(fin.data, fin.pos, Postings(table))
    requires cnt_words == |table| && CountsFit32(table)
    modifies fin
    ensures lists == Lists(table)
  {
    var cnt_docs: u32 := 0;
    lists := [];
    assert table[0..] == table;
    for i := 0 to cnt_words
      invariant fin.Valid() && RestIs(fin.data, fin.pos, Postings(table[i..]))
      invariant lists == Lists(table[..i])
    {
      NextList(fin.data, fin.pos, table[i..], cnt_docs);
      assert table[i..][1..] == table[i + 1..];
      cnt_docs := fin.ReadU32(cnt_docs);
      var docs := ReadDocs(fin, cnt_docs, table[i].docs, Postings(table[i + 1..]));
      assert Lists(table[..i + 1]) == Lists(table[..i]) + [table[i].docs];
      lists := lists + [docs];
    }
    assert table[..cnt_words] == table;
  }

  method ReadDocs(fin: BinStream, cnt_docs: nat, ghost expected: seq<u64>, ghost rest: seq<byte>)
    returns (docs: seq<u64>)
    requires fin.Valid() && cnt_docs == |expected| && RestIs(fin.data, fin.pos, EncodeWords(expected) + rest)
    modifies fin
    ensures fin.Valid() && docs == expected && RestIs(fin.data, fin.pos, rest)
  {
    var cur_doc: u64 := 0;
    docs := [];
    assert expected[0..] == expected;
    for j := 0 to cnt_docs
      invariant fin.Valid() && RestIs(fin.data, fin.pos, EncodeWords(expected[j..]) + rest)
      invariant docs == expected[..j]
    {
      NextDoc(fin.data, fin.pos, expected[j..], cur_doc, rest);
      assert expected[j..][1..] == expected[j + 1..];
      cur_doc := fin.ReadU64(cur_doc);
      docs := docs + [cur_doc];
    }
    assert EncodeWords(expected[cnt_docs..]) + rest == rest;
  }
}
