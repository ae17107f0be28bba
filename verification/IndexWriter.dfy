/** Writing an index file: the header loop that both programs share, and steps of the posting loops. */
module IndexWriter {
  import opened Sequences
  import opened Decimal
  import opened Bytes
  import opened DocStream
  import opened IndexFormat

  /** `table` has the words `ks`, each with as many documents as counted. */
  ghost predicate Shaped(ks: seq<u64>, counts: map<u64, nat>, table: seq<Entry>) {
    && |ks| == |table|
    && forall i :: 0 <= i < |ks| ==> ks[i] in counts && table[i].word == ks[i] && |table[i].docs| == counts[ks[i]]
  }

  /** `out` holds the first `i` header entries; the next list is at `offset`. */
  ghost predicate HeaderUpTo(out: seq<byte>, table: seq<Entry>, i: nat, offset: nat) {
    i <= |table| && out + Header(table[i..], offset) == Header(table, 16 * (|table| + 1))
  }

  lemma {:induction false} HeaderStart(table: seq<Entry>)
    ensures HeaderUpTo([], table, 0, 16 * (|table| + 1))
  {
    assert table[0..] == table;
  }

  lemma {:induction false} HeaderStep(out: seq<byte>, table: seq<Entry>, i: nat, offset: nat)
    requires i < |table| && HeaderUpTo(out, table, i, offset)
    ensures HeaderUpTo(out + Encode(table[i].word, 8) + Encode(offset % U64_LIMIT, 8), table, i + 1,
                       offset + 4 + 8 * |table[i].docs|)
  {
    assert table[i..][1..] == table[i + 1..] && table[i..][0] == table[i];
    ConcatFour(out, Encode(table[i].word, 8), Encode(offset % U64_LIMIT, 8),
               Header(table[i + 1..], offset + 4 + 8 * |table[i].docs|));
  }

  lemma {:induction false} HeaderDone(out: seq<byte>, table: seq<Entry>, offset: nat)
    requires HeaderUpTo(out, table, |table|, offset)
    ensures out == Header(table, 16 * (|table| + 1))
  {
  }

  /** Writes the (word, offset) entries and the zero entry. */
  method WriteHeader(ks: seq<u64>, counts: map<u64, nat>, ghost table: seq<Entry>) returns (out: seq<byte>)
    requires Shaped(ks, counts, table)
    ensures out == Header(table, 16 * (|table| + 1)) + TERMINATOR
  {
    out := [];
    var prev_cnt_docs: nat, cur_offset: u64 := 0, 0;
    ghost var offset: nat := 16 * (|table| + 1);
    HeaderStart(table);
    for i := 0 to |ks|
      invariant i == 0 ==> cur_offset == 0 && offset == 16 * (|table| + 1)
      invariant i > 0 ==> offset % U64_LIMIT == (cur_offset + 4 + prev_cnt_docs * 8) % U64_LIMIT
      invariant HeaderUpTo(out, table, i, offset)
    {
      HeaderStep(out, table, i, offset);
      out := out + Encode(ks[i], 8);
      cur_offset := NextOffset(i, |ks|, prev_cnt_docs, cur_offset);
      assert cur_offset == offset % U64_LIMIT;
      prev_cnt_docs := counts[ks[i]];
      out := out + Encode(cur_offset, 8);
      OffsetAdvances(offset, cur_offset, prev_cnt_docs);
      offset := offset + 4 + 8 * |table[i].docs|;
    }
    HeaderDone(out, table, offset);
    var temp: u64 := 0;
    out := out + (Encode(temp, 8) + Encode(temp, 8));
  }

  /** The 64-bit offset written for header entry `i`, from the one before it. */
  function NextOffset(i: nat, size: nat, prev_cnt_docs: nat, cur_offset: u64): u64 {
    if i == 0 then (cur_offset + 16 * (size + 1)) % U64_LIMIT
    else (cur_offset + 4 + prev_cnt_docs * 8) % U64_LIMIT
  }

  lemma {:induction false} OffsetAdvances(offset: nat, cur_offset: u64, n: nat)
    requires cur_offset == offset % U64_LIMIT
    ensures (offset + 4 + 8 * n) % U64_LIMIT == (cur_offset + 4 + n * 8) % U64_LIMIT
  {
    assert offset == cur_offset + U64_LIMIT * (offset / U64_LIMIT);
  }

  /** `out` holds the first `i` posting lists. */
  ghost predicate PostingsUpTo(out: seq<byte>, table: seq<Entry>, i: nat) {
    i <= |table| && out + Postings(table[i..]) == Postings(table)
  }

  lemma {:induction false} PostingsStart(table: seq<Entry>)
    ensures PostingsUpTo([], table, 0)
  {
    assert table[0..] == table;
  }

  lemma {:induction false} PostingsStep(out: seq<byte>, table: seq<Entry>, i: nat)
    requires i < |table| && PostingsUpTo(out, table, i)
    ensures PostingsUpTo(out + EntryBytes(table[i]), table, i + 1)
  {
    assert table[i..][1..] == table[i + 1..] && table[i..][0] == table[i];
    assert out + (EntryBytes(table[i]) + Postings(table[i + 1..]))
        == (out + EntryBytes(table[i])) + Postings(table[i + 1..]);
  }

  lemma {:induction false} PostingsDone(out: seq<byte>, table: seq<Entry>)
    requires PostingsUpTo(out, table, |table|)
    ensures out == Postings(table)
  {
  }

  lemma {:induction false} EncodeWordsSnoc(ws: seq<u64>, w: u64)
    ensures EncodeWords(ws + [w]) == EncodeWords(ws) + Encode(w, 8)
  {
    if ws == [] {
      assert EncodeWords([] + [w]) == Encode(w, 8) + [] == Encode(w, 8);
    } else {
      EncodeWordsSnoc(ws[1..], w);
      assert (ws + [w])[1..] == ws[1..] + [w];
      assert Encode(ws[0], 8) + (EncodeWords(ws[1..]) + Encode(w, 8)) == EncodeWords(ws) + Encode(w, 8);
    }
  }
}
